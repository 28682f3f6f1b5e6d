/** What `operator[]` of a pointer creates: which containers, of which size, with what
    in them. */
module Creation {
  import opened Outcomes
  import opened Text
  import opened Values
  import opened Pointers
  import opened Resolution
  import opened Patch
  import opened Locality
  import opened PatchLaws

  // ----- one token

  function Nulls(n: nat): (r: seq<Json>)
    ensures |r| == n && forall i | 0 <= i < n :: r[i] == Null
  {
    seq(n, _ => Null)
  }

  lemma WriteHere(doc: Json, v: Json)
    ensures EditAt(Unchecked, doc, [], Assign(v)) == Ok(v)
  {
  }

  lemma WriteMember(m: map<string, Json>, t: string, v: Json)
    ensures EditAt(Unchecked, Object(m), [t], Assign(v)) == Ok(Object(m[t := v]))
  {
    var f := RawFocus(Object(Ensure(m, t)), Key(t));
    assert Open(Unchecked, Object(m), t) == Ok(f);
    assert Plug(f, v) == Object(m[t := v]);
    EditBelow(Unchecked, Object(m), t, [], Assign(v));
    WriteHere(Peek(f), v);
    assert [t] + [] == [t];
  }

  /** An existing element is replaced; otherwise the array grows, filled with null, until
      the index is its last. */
  lemma WriteItem(a: seq<Json>, i: nat, v: Json)
    requires i < SIZE_MAX
    ensures EditAt(Unchecked, Array(a), [Digits(i)], Assign(v)) ==
            Ok(Array(if i < |a| then a[i := v] else a + Nulls(i - |a|) + [v]))
  {
    ArrayIndexIsDigits(Digits(i), i);
    assert Digits(i) != "-" by { assert IsDigit(Digits(i)[0]); }
    var f := RawFocus(Array(Grow(a, i)), Index(i));
    assert Open(Unchecked, Array(a), Digits(i)) == Ok(f);
    if i >= |a| { assert Grow(a, i)[i := v] == a + Nulls(i - |a|) + [v]; }
    EditBelow(Unchecked, Array(a), Digits(i), [], Assign(v));
    WriteHere(Peek(f), v);
    assert [Digits(i)] + [] == [Digits(i)];
  }

  lemma WriteEnd(a: seq<Json>, v: Json)
    ensures EditAt(Unchecked, Array(a), ["-"], Assign(v)) == Ok(Array(a + [v]))
  {
    var f := RawFocus(Array(Grow(a, |a|)), Index(|a|));
    assert Open(Unchecked, Array(a), "-") == Ok(f);
    assert Grow(a, |a|)[|a| := v] == a + [v];
    EditBelow(Unchecked, Array(a), "-", [], Assign(v));
    WriteHere(Peek(f), v);
    assert ["-"] + [] == ["-"];
  }

  /** Null becomes an array for the numeral of an index and for "-", an object for every
      token that has some other character than digits, and an exception for the rest. */
  lemma WriteNull(t: string, v: Json)
    ensures t == "-" ==> EditAt(Unchecked, Null, [t], Assign(v)) == Ok(Array([v]))
    ensures forall i: nat | i < SIZE_MAX && t == Digits(i) ::
              EditAt(Unchecked, Null, [t], Assign(v)) == Ok(Array(Nulls(i) + [v]))
    ensures t != "-" && !AllDigits(t) ==> EditAt(Unchecked, Null, [t], Assign(v)) == Ok(Object(map[t := v]))
    ensures AllDigits(t) && (forall i: nat | i < SIZE_MAX :: t != Digits(i)) ==>
              EditAt(Unchecked, Null, [t], Assign(v)).Err?
  {
    assert [t] + [] == [t];
    EditBelow(Unchecked, Null, t, [], Assign(v));
    if t == "-" {
      assert Open(Unchecked, Null, t) == Open(Unchecked, Array([]), t);
      EditBelow(Unchecked, Array([]), t, [], Assign(v));
      WriteEnd([], v);
      assert [] + [v] == [v];
    } else if AllDigits(t) {
      assert Open(Unchecked, Null, t) == Open(Unchecked, Array([]), t);
      EditBelow(Unchecked, Array([]), t, [], Assign(v));
      forall i: nat | i < SIZE_MAX && t == Digits(i)
        ensures EditAt(Unchecked, Null, [t], Assign(v)) == Ok(Array(Nulls(i) + [v]))
      {
        WriteItem([], i, v);
        assert [] + Nulls(i) + [v] == Nulls(i) + [v];
      }
      if forall i: nat | i < SIZE_MAX :: t != Digits(i) {
        if ArrayIndex(t).Ok? { ArrayIndexIsDigits(t, ArrayIndex(t).value); }
      }
    } else {
      assert Open(Unchecked, Null, t) == Open(Unchecked, Object(map[]), t);
      EditBelow(Unchecked, Object(map[]), t, [], Assign(v));
      WriteMember(map[], t, v);
      assert forall i: nat :: AllDigits(Digits(i));
    }
  }

  // ----- whole pointers

  /** The value that null becomes when `x` is put below it at `q`. */
  function Created(q: Pointer, x: Json): Json
    decreases |q|
  {
    if q == [] then x
    else
      var inner := Created(q[1..], x);
      if q[0] == "-" then Array([inner])
      else if AllDigits(q[0]) then Array(Nulls(Numeral(q[0])) + [inner])
      else Object(map[q[0] := inner])
  }

  /** The same for a value in which the first token does not resolve. */
  function CreatedIn(node: Json, q: Pointer, x: Json): Json
    requires q != [] && CreatableIn(node, q)
  {
    var inner := Created(q[1..], x);
    match node
    case Object(m) => Object(m[q[0] := inner])
    case Array(a) =>
      if q[0] == "-" then Array(a + [inner])
      else
        var i := ArrayIndex(q[0]).value;
        Array(if i < |a| then a[i := inner] else a + Nulls(i - |a|) + [inner])
    case _ => Created(q, x)
  }

  /** Writing at `[t] + r` is writing, at `[t]`, what writing at `r` makes of the value there. */
  lemma WriteFirst(j: Json, t: string, r: Pointer, e: Edit, w: Json)
    requires Open(Unchecked, j, t).Ok? && EditAt(Unchecked, Peek(Open(Unchecked, j, t).value), r, e) == Ok(w)
    ensures EditAt(Unchecked, j, [t] + r, e) == EditAt(Unchecked, j, [t], Assign(w))
  {
    EditBelow(Unchecked, j, t, r, e);
    EditBelow(Unchecked, j, t, [], Assign(w));
    WriteHere(Peek(Open(Unchecked, j, t).value), w);
    assert [t] + [] == [t];
  }

  lemma NullOpens(t: string)
    requires AllDigits(t) ==> ArrayIndex(t).Ok?
    ensures Open(Unchecked, Null, t).Ok? && Peek(Open(Unchecked, Null, t).value) == Null
  {
  }

  /** Where all containers can be created, these are created. */
  lemma {:induction false} CreatesBelowNull(q: Pointer, e: Edit, x: Json)
    requires Creatable(q) && Act(e, Null) == Ok(x)
    ensures EditAt(Unchecked, Null, q, e) == Ok(Created(q, x))
    decreases |q|
  {
    if q == [] {
      assert Trace(Unchecked, Null, q) == Ok(Cursor([], Null));
    } else {
      hide EditAt, Open, Peek;
      var t, r := q[0], q[1..];
      assert q == [t] + r && t in q;
      CreatesBelowNull(r, e, x);
      NullOpens(t);
      WriteFirst(Null, t, r, e, Created(r, x));
      WriteNull(t, Created(r, x));
      if AllDigits(t) {
        ArrayIndexIsDigits(t, ArrayIndex(t).value);
        NumeralOfDigits(ArrayIndex(t).value);
      }
    }
  }

  lemma MissingOpens(node: Json, t: string)
    requires Open(Checked, node, t).Err? && Open(Unchecked, node, t).Ok?
    ensures Peek(Open(Unchecked, node, t).value) == Null
  {
  }

  /** The same where the first token does not resolve in an existing value. */
  lemma CreatesIn(node: Json, q: Pointer, e: Edit, x: Json)
    requires q != [] && Open(Checked, node, q[0]).Err? && CreatableIn(node, q) && Act(e, Null) == Ok(x)
    ensures EditAt(Unchecked, node, q, e) == Ok(CreatedIn(node, q, x))
  {
    var t, r := q[0], q[1..];
    assert q == [t] + r;
    if node.Null? {
      CreatesBelowNull(q, e, x);
    } else {
      assert Open(Unchecked, node, t).Ok?;
      hide EditAt, Created;
      MissingOpens(node, t);
      CreatesBelowNull(r, e, x);
      WriteFirst(node, t, r, e, Created(r, x));
      if node.Object? {
        WriteMember(node.members, t, Created(r, x));
      } else if t == "-" {
        WriteEnd(node.items, Created(r, x));
      } else {
        ArrayIndexIsDigits(t, ArrayIndex(t).value);
        WriteItem(node.items, ArrayIndex(t).value, Created(r, x));
      }
    }
  }

  /** `operator[]` in a document: the pointer resolves up to `p`, and from there on the
      containers are created. */
  lemma UncheckedCreates(doc: Json, p: Pointer, q: Pointer, e: Edit, x: Json)
    requires At(doc, p).Ok? && q != [] && Open(Checked, At(doc, p).value, q[0]).Err?
    requires CreatableIn(At(doc, p).value, q) && Act(e, Null) == Ok(x)
    ensures EditAt(Unchecked, doc, p + q, e) == Ok(SetAt(doc, p, CreatedIn(At(doc, p).value, q, x)))
  {
    var node := At(doc, p).value;
    SetAtLaws(doc, p, node, node);
    EditBelowSet(doc, p, node, q, e);
    CreatesIn(node, q, e, x);
  }

  /** An add with a missing parent creates it, as an object with the one member that is
      added, and the containers on the way to it. */
  lemma AddCreates(doc: Json, p: Pointer, q: Pointer, last: string, v: Json)
    requires At(doc, p).Ok? && q != [] && Open(Checked, At(doc, p).value, q[0]).Err?
    requires CreatableIn(At(doc, p).value, q) && Grounded(doc, p + q + [last])
    ensures AddAt(doc, p + q + [last], v) ==
            Ok(SetAt(doc, p, CreatedIn(At(doc, p).value, q, Object(map[last := v]))))
  {
    var ptr := p + q + [last];
    assert Front(ptr) == p + q && Last(ptr) == last;
    UncheckedCreates(doc, p, q, Insert(last, v), Object(map[last := v]));
  }
}
