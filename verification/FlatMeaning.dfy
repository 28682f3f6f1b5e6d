/** What `flatten` and `unflatten` do with each place of a document. */
module FlatMeaning {
  import opened Outcomes
  import opened Text
  import opened Values
  import opened Pointers
  import opened Resolution
  import opened Patch
  import opened Flattening

  predicate EmptyContainer(j: Json) { j == Array([]) || j == Object(map[]) }

  predicate Scalar(j: Json) { !j.Array? && !j.Object? }

  /** The leaves are the places of scalars and empty containers. */
  lemma {:induction false} LeafIs(v: Json, p: Pointer)
    ensures IsLeaf(v, p) <==> At(v, p).Ok? && (EmptyContainer(At(v, p).value) || Scalar(At(v, p).value))
    ensures IsLeaf(v, p) ==> Leaf(v, p) == if EmptyContainer(At(v, p).value) then Null else At(v, p).value
    decreases |p|
  {
    if p != [] && Open(Checked, v, p[0]).Ok? { LeafIs(Peek(Open(Checked, v, p[0]).value), p[1..]); }
  }

  lemma EntryIsLeaf(v: Json, p: Pointer)
    requires FitsSizeType(v)
    ensures Print(p) in Flat("", v) <==> IsLeaf(v, p)
    ensures IsLeaf(v, p) ==> Flat("", v)[Print(p)] == Leaf(v, p)
  {
    assert "" + Print(p) == Print(p);
    if IsLeaf(v, p) { FlatIsComplete("", v, p); }
    if Print(p) in Flat("", v) {
      var q := FlatIsSound("", v, Print(p));
      assert "" + Print(q) == Print(q);
      PrintInjective(p, q);
    }
  }

  /** The flattened document has, at the printed pointer of each empty container, null;
      at that of each scalar, the scalar; and no other members. */
  lemma FlatMeans(v: Json, p: Pointer)
    requires FitsSizeType(v)
    ensures At(v, p).Ok? && (At(v, p).value == Array([]) || At(v, p).value == Object(map[])) ==>
              Print(p) in Flat("", v) && Flat("", v)[Print(p)] == Null
    ensures At(v, p).Ok? && !At(v, p).value.Array? && !At(v, p).value.Object? ==>
              Print(p) in Flat("", v) && Flat("", v)[Print(p)] == At(v, p).value
    ensures At(v, p).Ok? && (At(v, p).value.Array? && At(v, p).value.items != []) ==> Print(p) !in Flat("", v)
    ensures At(v, p).Ok? && (At(v, p).value.Object? && At(v, p).value.members != map[]) ==> Print(p) !in Flat("", v)
    ensures At(v, p).Err? ==> Print(p) !in Flat("", v)
  {
    hide Flat;
    EntryIsLeaf(v, p);
    LeafIs(v, p);
  }

  /** All its keys are such pointers. */
  lemma FlatKeysArePointers(v: Json, s: string)
    requires FitsSizeType(v) && s in Flat("", v)
    ensures Parse(s).Ok? && Print(Parse(s).value) == s
  {
    hide Flat;
    var p := FlatIsSound("", v, s);
    assert "" + Print(p) == Print(p);
    ParsePrint(p);
  }

  /** The document with empty containers replaced: null in their places, the scalars and
      the shape of the other containers as before. */
  lemma {:induction false} PruneMeans(v: Json, p: Pointer)
    ensures At(v, p).Ok? <==> At(Prune(v), p).Ok?
    ensures At(v, p).Ok? && (At(v, p).value == Array([]) || At(v, p).value == Object(map[])) ==>
              At(Prune(v), p) == Ok(Null)
    ensures At(v, p).Ok? && !At(v, p).value.Array? && !At(v, p).value.Object? ==> At(Prune(v), p) == At(v, p)
    ensures At(v, p).Ok? && At(v, p).value.Array? && At(v, p).value.items != [] ==>
              At(Prune(v), p).value.Array? && |At(Prune(v), p).value.items| == |At(v, p).value.items|
    ensures At(v, p).Ok? && At(v, p).value.Object? && At(v, p).value.members != map[] ==>
              At(Prune(v), p).value.Object? && At(Prune(v), p).value.members.Keys == At(v, p).value.members.Keys
    decreases |p|
  {
    if p != [] {
      if Open(Checked, v, p[0]).Ok? {
        PruneOpens(v, p[0]);
        PruneMeans(Peek(Open(Checked, v, p[0]).value), p[1..]);
      } else {
        PruneOpens(v, p[0]);
      }
    }
  }

  lemma PruneOpens(v: Json, t: string)
    ensures Open(Checked, v, t).Ok? <==> Open(Checked, Prune(v), t).Ok?
    ensures Open(Checked, v, t).Ok? ==>
              Peek(Open(Checked, Prune(v), t).value) == Prune(Peek(Open(Checked, v, t).value))
  {
    if v.Array? && v.items != [] {
      assert |Prune(v).items| == |v.items|;
    } else if v.Object? && v.members != map[] {
      assert Prune(v).members.Keys == v.members.Keys;
    }
  }

  // ----- exceptions of unflatten

  /** `get_and_create` does not go on from a scalar, nor to what is no index of an array. */
  lemma CreateThrows(j: Json, t: string, rest: Pointer, e: Edit)
    ensures !j.Null? && !j.Array? && !j.Object? ==> EditAt(Creating, j, [t] + rest, e) == Err(TypeError(313))
    ensures j.Array? && ArrayIndex(t).Err? ==> EditAt(Creating, j, [t] + rest, e) == Err(ArrayIndex(t).error)
  {
    EditBelow(Creating, j, t, rest, e);
  }

  /** Null becomes an array for the token "0" only. */
  lemma CreateFromNull(t: string, x: Json)
    ensures EditAt(Creating, Null, [t], Assign(x)) == Ok(if t == "0" then Array([x]) else Object(map[t := x]))
  {
    assert [t] + [] == [t];
    EditBelow(Creating, Null, t, [], Assign(x));
    assert Trace(Creating, Null, []) == Ok(Cursor([], Null));
    assert EditAt(Creating, Null, [], Assign(x)) == Ok(x);
    var f := Open(Creating, Null, t).value;
    assert Peek(f) == Null;
    if t == "0" {
      assert Grow([], 0)[0 := x] == [x];
      assert Plug(f, x) == Array([x]);
    } else {
      assert Ensure(map[], t)[t := x] == map[t := x];
      assert Plug(f, x) == Object(map[t := x]);
    }
  }

  /** The first key in byte order at which `unflatten` throws: its value is not primitive,
      or it is no pointer, or its pointer leads into what the keys before it made. */
  lemma {:induction false} UnflattenFails(d: Json, m: map<string, Json>, keys: seq<string>) returns (n: nat)
    requires (forall k | k in keys :: k in m) && UnflattenFrom(d, m, keys).Err?
    ensures n < |keys| && UnflattenFrom(d, m, keys[..n]).Ok?
    ensures var before, k := UnflattenFrom(d, m, keys[..n]).value, keys[n];
            if !IsPrimitive(m[k]) then UnflattenFrom(d, m, keys) == Err(TypeError(315))
            else if Parse(k).Err? then UnflattenFrom(d, m, keys) == Err(Parse(k).error)
            else UnflattenFrom(d, m, keys) == EditAt(Creating, before, Parse(k).value, Assign(m[k]))
    decreases |keys|
  {
    var k := keys[0];
    if !IsPrimitive(m[k]) || Parse(k).Err? || EditAt(Creating, d, Parse(k).value, Assign(m[k])).Err? {
      n := 0;
      assert keys[..0] == [];
    } else {
      var next := EditAt(Creating, d, Parse(k).value, Assign(m[k])).value;
      var i := UnflattenFails(next, m, keys[1..]);
      n := i + 1;
      assert keys[..n][1..] == keys[1..][..i];
    }
  }

  lemma UnflattenNeedsObject(v: Json)
    ensures Unflatten(v) == Err(TypeError(314)) <==> !v.Object?
  {
    if v.Object? && Unflatten(v).Err? {
      var keys := SortedKeys(v.members.Keys);
      var n := UnflattenFails(Null, v.members, keys);
      if IsPrimitive(v.members[keys[n]]) && Parse(keys[n]).Ok? {
        CreatingThrows(UnflattenFrom(Null, v.members, keys[..n]).value, Parse(keys[n]).value);
      } else {
        ParseThrowsNoType(keys[n]);
      }
    }
  }

  lemma ParseThrowsNoType(s: string)
    ensures Parse(s) != Err(TypeError(314))
  {
    ParseThrows(s);
    if Parse(s).Err? && s != "" { TokensThrow(s[1..]); }
  }

  lemma {:induction false} CreatingThrows(j: Json, ptr: Pointer)
    ensures Trace(Creating, j, ptr) != Err(TypeError(314))
    decreases |ptr|
  {
    if ptr != [] && Open(Creating, j, ptr[0]).Ok? {
      CreatingThrows(Peek(Open(Creating, j, ptr[0]).value), ptr[1..]);
    }
  }
}
