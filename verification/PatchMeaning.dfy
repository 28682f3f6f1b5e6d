/** What lookups, patch operations and patch entries mean, case by case: section 4 of
    RFC 6901 and sections 3 and 4 of RFC 6902. */
module PatchMeaning {
  import opened Outcomes
  import opened Text
  import opened Values
  import opened Pointers
  import opened Resolution
  import opened Patch
  import opened Locality
  import opened PatchLaws

  // ----- checked lookup

  lemma AtRoot(j: Json)
    ensures At(j, []) == Ok(j)
  {
  }

  lemma AtMember(m: map<string, Json>, k: string, rest: Pointer)
    ensures At(Object(m), [k] + rest) == if k in m then At(m[k], rest) else Err(OutOfRange(403))
  {
    assert ([k] + rest)[1..] == rest;
  }

  lemma AtItem(a: seq<Json>, i: nat, rest: Pointer)
    requires i < SIZE_MAX
    ensures At(Array(a), [Digits(i)] + rest) == if i < |a| then At(a[i], rest) else Err(OutOfRange(401))
  {
    assert ([Digits(i)] + rest)[1..] == rest;
    ArrayIndexIsDigits(Digits(i), i);
    assert Digits(i) != "-" by { assert IsDigit(Digits(i)[0]); }
  }

  /** What is no member, no index, or looked up in a value that is no container. */
  lemma AtNothing(j: Json, t: string, rest: Pointer)
    ensures j.Array? && t == "-" ==> At(j, [t] + rest) == Err(OutOfRange(402))
    ensures j.Array? && t != "-" && ArrayIndex(t).Err? ==> At(j, [t] + rest) == Err(ArrayIndex(t).error)
    ensures !j.Array? && !j.Object? ==> At(j, [t] + rest) == Err(OutOfRange(404))
  {
    assert ([t] + rest)[1..] == rest;
  }

  /** A lookup throws what its first failing token throws. */
  lemma {:induction false} AtAppend(j: Json, p: Pointer, q: Pointer)
    ensures At(j, p + q) == if At(j, p).Err? then At(j, p) else At(At(j, p).value, q)
    decreases |p|
  {
    if p == [] {
      assert p + q == q;
    } else {
      assert (p + q)[1..] == p[1..] + q;
      var f := Open(Checked, j, p[0]);
      if f.Ok? { AtAppend(Peek(f.value), p[1..], q); }
    }
  }

  // ----- the replacement of a value

  /** After the replacement: below the place, above it, and elsewhere. */
  lemma SetAtEverywhere(doc: Json, p: Pointer, v: Json, q: Pointer)
    requires At(doc, p).Ok?
    ensures p <= q ==> At(SetAt(doc, p, v), q) == At(v, q[|p|..])
    ensures q <= p ==> At(doc, q).Ok? && At(At(doc, q).value, p[|q|..]).Ok?
                       && At(SetAt(doc, p, v), q) == Ok(SetAt(At(doc, q).value, p[|q|..], v))
    ensures !(p <= q) && !(q <= p) ==> At(SetAt(doc, p, v), q) == At(doc, q)
  {
    if p <= q { SetAtBelow(doc, p, v, q); }
    if q <= p {
      SetAtAbove(doc, p, v, q);
    } else if !(p <= q) {
      SetAtElsewhere(doc, p, v, q);
    }
  }

  lemma {:induction false} SetAtBelow(doc: Json, p: Pointer, v: Json, q: Pointer)
    requires At(doc, p).Ok? && p <= q
    ensures At(SetAt(doc, p, v), q) == At(v, q[|p|..])
    decreases |p|
  {
    if p == [] {
      assert q[0..] == q;
    } else {
      var f := Open(Checked, doc, p[0]).value;
      OpenAgain(doc, p[0], SetAt(Peek(f), p[1..], v));
      hide Open;
      SetAtBelow(Peek(f), p[1..], v, q[1..]);
      assert q[|p|..] == q[1..][|p[1..]|..];
    }
  }

  lemma {:induction false} SetAtAbove(doc: Json, p: Pointer, v: Json, q: Pointer)
    requires At(doc, p).Ok? && q <= p
    ensures At(doc, q).Ok? && At(At(doc, q).value, p[|q|..]).Ok?
    ensures At(SetAt(doc, p, v), q) == Ok(SetAt(At(doc, q).value, p[|q|..], v))
    decreases |p|
  {
    if q == [] {
      assert p[0..] == p;
    } else {
      var f := Open(Checked, doc, p[0]).value;
      OpenAgain(doc, p[0], SetAt(Peek(f), p[1..], v));
      hide Open;
      SetAtAbove(Peek(f), p[1..], v, q[1..]);
      assert p[|q|..] == p[1..][|q[1..]|..];
    }
  }

  lemma {:induction false} SetAtElsewhere(doc: Json, p: Pointer, v: Json, q: Pointer)
    requires At(doc, p).Ok? && !(p <= q) && !(q <= p)
    ensures At(SetAt(doc, p, v), q) == At(doc, q)
    decreases |p|
  {
    var f := Open(Checked, doc, p[0]).value;
    var child := SetAt(Peek(f), p[1..], v);
    if q[0] == p[0] {
      OpenAgain(doc, p[0], child);
      hide Open;
      assert p == [p[0]] + p[1..] && q == [p[0]] + q[1..];
      SetAtElsewhere(Peek(f), p[1..], v, q[1..]);
    } else {
      OtherSlot(doc, p[0], q[0], child);
    }
  }

  lemma OtherSlot(doc: Json, t: string, u: string, v: Json)
    requires Open(Checked, doc, t).Ok? && t != u
    ensures var f, g := Open(Checked, doc, t).value, Open(Checked, doc, u);
            var h := Open(Checked, Plug(f, v), u);
            if g.Err? then h == Err(g.error) else h.Ok? && Peek(h.value) == Peek(g.value)
  {
    if doc.Array? {
      ArrayIndexIsDigits(t, ArrayIndex(t).value);
      if ArrayIndex(u).Ok? { ArrayIndexIsDigits(u, ArrayIndex(u).value); }
    }
  }

  // ----- operations

  /** Section 4.1: add, where the parent exists. */
  lemma AddMeans(doc: Json, ptr: Pointer, v: Json)
    ensures ptr == [] ==> Exec(doc, Add(ptr, v)) == Ok(v)
    ensures ptr != [] && At(doc, Front(ptr)).Ok? ==>
              var front, last, parent := Front(ptr), Last(ptr), At(doc, Front(ptr)).value;
              && (parent.Object? ==> Exec(doc, Add(ptr, v)) == Ok(SetAt(doc, front, Object(parent.members[last := v]))))
              && (parent.Null? ==> Exec(doc, Add(ptr, v)) == Ok(SetAt(doc, front, Object(map[last := v]))))
              && (parent.Array? && last == "-" ==>
                    Exec(doc, Add(ptr, v)) == Ok(SetAt(doc, front, Array(parent.items + [v]))))
              && (parent.Array? && last != "-" && ArrayIndex(last).Err? ==>
                    Exec(doc, Add(ptr, v)) == Err(ArrayIndex(last).error))
    ensures ptr != [] && !Grounded(doc, ptr) ==> Exec(doc, Add(ptr, v)) == At(doc, ptr[..1])
  {
    if ptr != [] && At(doc, Front(ptr)).Ok? { AddIsSet(doc, ptr, v); }
  }

  /** Add at the index of an array: the elements from there on move up. */
  lemma AddItemMeans(doc: Json, front: Pointer, i: nat, v: Json)
    requires At(doc, front).Ok? && At(doc, front).value.Array? && i < SIZE_MAX
    ensures var a := At(doc, front).value.items;
            Exec(doc, Add(front + [Digits(i)], v)) ==
            if i > |a| then Err(OutOfRange(401)) else Ok(SetAt(doc, front, Array(a[..i] + [v] + a[i..])))
  {
    var ptr := front + [Digits(i)];
    assert Front(ptr) == front && Last(ptr) == Digits(i);
    ArrayIndexIsDigits(Digits(i), i);
    assert Digits(i) != "-" by { assert IsDigit(Digits(i)[0]); }
    hide At, SetAt, Digits, ArrayIndex;
    AddIsSet(doc, ptr, v);
  }

  /** Section 4.2: remove. */
  lemma RemoveMeans(doc: Json, front: Pointer, last: string)
    ensures At(doc, front).Err? ==> Exec(doc, Remove(front + [last])) == At(doc, front)
    ensures At(doc, front).Ok? ==>
              var parent := At(doc, front).value;
              && (parent.Object? && last in parent.members ==>
                    Exec(doc, Remove(front + [last])) == Ok(SetAt(doc, front, Object(parent.members - {last}))))
              && (parent.Object? && last !in parent.members ==>
                    Exec(doc, Remove(front + [last])) == Err(OutOfRange(403)))
              && (parent.Array? && ArrayIndex(last).Err? ==>
                    Exec(doc, Remove(front + [last])) == Err(ArrayIndex(last).error))
              && (!parent.Object? && !parent.Array? ==> Exec(doc, Remove(front + [last])) == Ok(doc))
    ensures Exec(doc, Remove([])) == Err(OutOfRange(405))
  {
    var ptr := front + [last];
    assert Front(ptr) == front && Last(ptr) == last;
    AtIsTrace(doc, front);
    if At(doc, front).Ok? {
      RemoveIsSet(doc, ptr);
      SetAtLaws(doc, front, At(doc, front).value, At(doc, front).value);
    }
  }

  /** Remove at the index of an array: the elements behind it move down. */
  lemma RemoveItemMeans(doc: Json, front: Pointer, i: nat)
    requires At(doc, front).Ok? && At(doc, front).value.Array? && i < SIZE_MAX
    ensures var a := At(doc, front).value.items;
            Exec(doc, Remove(front + [Digits(i)])) ==
            if i >= |a| then Err(OutOfRange(401)) else Ok(SetAt(doc, front, Array(a[..i] + a[i + 1..])))
  {
    EraseItem(At(doc, front).value, i);
    var last := Digits(i);
    var ptr := front + [last];
    assert Front(ptr) == front && Last(ptr) == last;
    hide At, SetAt, Digits, EraseFrom;
    RemoveIsSet(doc, ptr);
  }

  lemma EraseItem(j: Json, i: nat)
    requires j.Array? && i < SIZE_MAX
    ensures EraseFrom(j, Digits(i)) ==
            if i >= |j.items| then Err(OutOfRange(401)) else Ok(Array(j.items[..i] + j.items[i + 1..]))
  {
    ArrayIndexIsDigits(Digits(i), i);
  }

  /** Section 4.3: replace. */
  lemma ReplaceMeans(doc: Json, ptr: Pointer, v: Json)
    ensures Exec(doc, Replace(ptr, v)) == if At(doc, ptr).Err? then At(doc, ptr) else Ok(SetAt(doc, ptr, v))
  {
    AtIsTrace(doc, ptr);
    if At(doc, ptr).Ok? { EditIsSet(Checked, doc, ptr, Assign(v)); }
  }

  /** Section 4.4: move is a remove followed by an add. */
  lemma MoveMeans(doc: Json, from: Pointer, ptr: Pointer)
    ensures Exec(doc, Move(from, ptr)) ==
            if At(doc, from).Err? then At(doc, from) else Run(doc, [Remove(from), Add(ptr, At(doc, from).value)])
  {
    if At(doc, from).Ok? {
      var remove, add := Remove(from), Add(ptr, At(doc, from).value);
      assert [remove, add] == [remove] + [add];
      RunConcat(doc, [remove], [add]);
      RunOne(doc, remove);
      if Exec(doc, remove).Ok? { RunOne(Exec(doc, remove).value, add); }
    }
  }

  /** Section 4.5: copy is an add. */
  lemma CopyMeans(doc: Json, from: Pointer, ptr: Pointer)
    ensures Exec(doc, Copy(from, ptr)) ==
            if At(doc, from).Err? then At(doc, from) else Exec(doc, Add(ptr, At(doc, from).value))
  {
  }

  /** Section 4.6: test changes nothing, and throws 501 unless the values are equal; other
      exceptions of the lookup than those about the range pass through. */
  lemma TestMeans(doc: Json, ptr: Pointer, v: Json)
    ensures var found := At(doc, ptr);
            && (found.Ok? && Equal(found.value, v) ==> Exec(doc, Test(ptr, v)) == Ok(doc))
            && (found.Ok? && !Equal(found.value, v) ==> Exec(doc, Test(ptr, v)) == Err(OtherError(501)))
            && (found.Err? && found.error.OutOfRange? ==> Exec(doc, Test(ptr, v)) == Err(OtherError(501)))
            && (found.Err? && !found.error.OutOfRange? ==> Exec(doc, Test(ptr, v)) == found)
  {
  }

  // ----- patch documents

  lemma DocumentMeans(doc: Json, patch: Json)
    ensures !patch.Array? ==> RunPatch(doc, patch) == Err(ParseError(104))
    ensures patch == Array([]) ==> RunPatch(doc, patch) == Ok(doc)
    ensures patch.Array? && patch.items != [] && !patch.items[0].Object? ==>
              RunPatch(doc, patch) == Err(ParseError(104))
  {
  }

  /** A mandatory member that is missing or no string. */
  predicate LacksString(m: map<string, Json>, name: string) { name !in m || !m[name].String? }

  /** An entry without a string for its operation, or for its path, is refused. */
  lemma EntryNeedsStrings(m: map<string, Json>)
    ensures LacksString(m, "op") || LacksString(m, "path") ==> ReadOp(Object(m)) == Err(ParseError(105))
    ensures !LacksString(m, "op") && !LacksString(m, "path") && Parse(m["path"].text).Err? ==>
              ReadOp(Object(m)) == Err(Parse(m["path"].text).error)
  {
    NamesDiffer();
  }

  /** The six operations of section 4 by name, and the exception for any other. */
  lemma EntryMeans(m: map<string, Json>, ptr: Pointer)
    requires !LacksString(m, "op") && !LacksString(m, "path") && Parse(m["path"].text) == Ok(ptr)
    ensures m["op"].text == "remove" ==> ReadOp(Object(m)) == Ok(Remove(ptr))
    ensures m["op"].text == "add" ==>
              ReadOp(Object(m)) == if "value" in m then Ok(Add(ptr, m["value"])) else Err(ParseError(105))
    ensures m["op"].text == "replace" ==>
              ReadOp(Object(m)) == if "value" in m then Ok(Replace(ptr, m["value"])) else Err(ParseError(105))
    ensures m["op"].text == "test" ==>
              ReadOp(Object(m)) == if "value" in m then Ok(Test(ptr, m["value"])) else Err(ParseError(105))
    ensures m["op"].text in {"move", "copy"} && LacksString(m, "from") ==> ReadOp(Object(m)) == Err(ParseError(105))
    ensures m["op"].text in {"move", "copy"} && !LacksString(m, "from") && Parse(m["from"].text).Err? ==>
              ReadOp(Object(m)) == Err(Parse(m["from"].text).error)
    ensures m["op"].text == "move" && !LacksString(m, "from") && Parse(m["from"].text).Ok? ==>
              ReadOp(Object(m)) == Ok(Move(Parse(m["from"].text).value, ptr))
    ensures m["op"].text == "copy" && !LacksString(m, "from") && Parse(m["from"].text).Ok? ==>
              ReadOp(Object(m)) == Ok(Copy(Parse(m["from"].text).value, ptr))
    ensures m["op"].text !in {"add", "remove", "replace", "move", "copy", "test"} ==>
              ReadOp(Object(m)) == Err(ParseError(105))
  {
    NamesDiffer();
    hide Parse;
  }

  /** Section 4 of RFC 6902: members that are not defined for the operation are ignored. */
  lemma EntryIgnores(m: map<string, Json>, name: string, x: Json)
    requires name != "op" && name != "path"
    requires name == "value" ==> "op" in m && m["op"].String? && m["op"].text !in {"add", "replace", "test"}
    requires name == "from" ==> "op" in m && m["op"].String? && m["op"].text !in {"move", "copy"}
    ensures ReadOp(Object(m[name := x])) == ReadOp(Object(m))
  {
    NamesDiffer();
    hide Parse;
  }
}
