/** `flatten` and `unflatten`: a document as a map from leaf pointers to leaves. */
module Flattening {
  import opened Outcomes
  import opened Text
  import opened Escaping
  import opened Values
  import opened Pointers
  import opened Resolution
  import opened Patch

  // ----- flatten

  predicate Childless(j: Json) {
    (j.Array? ==> j.items == []) && (j.Object? ==> j.members == map[])
  }

  /** What a childless value is flattened to: empty containers become null. */
  function LeafValue(j: Json): Json {
    if j.Array? || j.Object? then Null else j
  }

  function Flat(path: string, j: Json): map<string, Json>
    decreases j, 1, 0
  {
    if Childless(j) then map[path := LeafValue(j)]
    else if j.Array? then FlatItems(path, j, |j.items|)
    else if j.Object? then FlatMembers(path, j, SortedKeys(j.members.Keys))
    else map[]
  }

  /** The entries of the first `n` elements. */
  function FlatItems(path: string, j: Json, n: nat): map<string, Json>
    requires j.Array? && n <= |j.items|
    decreases j, 0, n
  {
    if n == 0 then map[] else FlatItems(path, j, n - 1) + Flat(path + "/" + Digits(n - 1), j.items[n - 1])
  }

  /** The entries of the members under `keys`. */
  function FlatMembers(path: string, j: Json, keys: seq<string>): map<string, Json>
    requires j.Object? && forall k | k in keys :: k in j.members
    decreases j, 0, |keys|
  {
    if keys == [] then map[]
    else
      var k := keys[|keys| - 1];
      FlatMembers(path, j, keys[..|keys| - 1]) + Flat(path + "/" + Escape(k), j.members[k])
  }

  lemma PlusAssociative(x: map<string, Json>, y: map<string, Json>, z: map<string, Json>)
    ensures (x + y) + z == x + (y + z)
  {
  }

  lemma PlusOne(x: map<string, Json>, path: string, v: Json)
    ensures x[path := v] == x + map[path := v] && x + map[] == x
  {
  }

  /** The recursive `flatten`, which inserts into a result it is handed. */
  method Flatten(path: string, value: Json, before: map<string, Json>) returns (result: map<string, Json>)
    ensures result == before + Flat(path, value)
    decreases value, 1
  {
    PlusOne(before, path, LeafValue(value));
    if value.Array? && value.items != [] {
      result := FlattenItems(path, value, before);
    } else if value.Object? && value.members != map[] {
      result := FlattenMembers(path, value, before);
    } else if value.Array? || value.Object? {
      result := before[path := Null];
    } else {
      result := before[path := value];
    }
  }

  method FlattenItems(path: string, value: Json, before: map<string, Json>) returns (result: map<string, Json>)
    requires value.Array?
    ensures result == before + FlatItems(path, value, |value.items|)
    decreases value, 0
  {
    result := before;
    PlusOne(before, path, Null);
    for i := 0 to |value.items|
      invariant result == before + FlatItems(path, value, i)
    {
      PlusAssociative(before, FlatItems(path, value, i), Flat(path + "/" + Digits(i), value.items[i]));
      result := Flatten(path + "/" + Digits(i), value.items[i], result);
    }
  }

  method FlattenMembers(path: string, value: Json, before: map<string, Json>) returns (result: map<string, Json>)
    requires value.Object?
    ensures result == before + FlatMembers(path, value, SortedKeys(value.members.Keys))
    decreases value, 0
  {
    result := before;
    PlusOne(before, path, Null);
    var keys := SortedKeys(value.members.Keys);
    for i := 0 to |keys|
      invariant result == before + FlatMembers(path, value, keys[..i])
    {
      var k := keys[i];
      assert keys[..i + 1][..i] == keys[..i] && keys[..i + 1][i] == k;
      var escaped := EscapeToken(k);
      PlusAssociative(before, FlatMembers(path, value, keys[..i]), Flat(path + "/" + Escape(k), value.members[k]));
      result := Flatten(path + "/" + escaped, value.members[k], result);
    }
    assert keys[..|keys|] == keys;
  }

  /** The member function `flatten`. */
  method FlattenDocument(value: Json) returns (r: Json)
    ensures r == Object(Flat("", value))
  {
    var result := Flatten("", value, map[]);
    assert map[] + Flat("", value) == Flat("", value);
    r := Object(result);
  }

  // ----- the entries are the leaves

  predicate IsLeaf(j: Json, p: Pointer)
    decreases |p|
  {
    if p == [] then Childless(j)
    else
      var f := Open(Checked, j, p[0]);
      f.Ok? && IsLeaf(Peek(f.value), p[1..])
  }

  /** The flattened value of a leaf. */
  function Leaf(j: Json, p: Pointer): Json
    requires IsLeaf(j, p)
    decreases |p|
  {
    if p == [] then LeafValue(j) else Leaf(Peek(Open(Checked, j, p[0]).value), p[1..])
  }

  lemma LeafBelow(j: Json, t: string, p: Pointer)
    requires Open(Checked, j, t).Ok?
    ensures var c := Peek(Open(Checked, j, t).value);
            && (IsLeaf(j, [t] + p) <==> IsLeaf(c, p))
            && (IsLeaf(c, p) ==> Leaf(j, [t] + p) == Leaf(c, p))
  {
    assert ([t] + p)[1..] == p;
  }

  lemma ItemOpens(j: Json, i: nat)
    requires j.Array? && i < |j.items| && FitsSizeType(j)
    ensures Open(Checked, j, Digits(i)) == Ok(RawFocus(j, Index(i)))
  {
    ArrayIndexIsDigits(Digits(i), i);
    assert Digits(i) != "-" by { assert IsDigit(Digits(i)[0]); }
  }

  lemma PathBelow(path: string, t: string, p: Pointer)
    ensures path + "/" + Escape(t) + Print(p) == path + Print([t] + p)
    ensures AllDigits(t) ==> path + "/" + t + Print(p) == path + Print([t] + p)
  {
    PrintCons(t, p);
    if AllDigits(t) { EscapeDigits(t); }
  }

  lemma {:induction false} EscapeDigits(t: string)
    requires AllDigits(t)
    ensures Escape(t) == t
  {
    if t != "" { EscapeDigits(t[1..]); }
  }

  /** Every entry of `Flat` comes from a leaf and holds its value. */
  lemma {:induction false} FlatIsSound(path: string, j: Json, s: string) returns (p: Pointer)
    requires FitsSizeType(j) && s in Flat(path, j)
    ensures IsLeaf(j, p) && s == path + Print(p) && Flat(path, j)[s] == Leaf(j, p)
    decreases j, 1, 0
  {
    if Childless(j) {
      p := [];
    } else if j.Array? {
      p := FlatItemsSound(path, j, |j.items|, s);
    } else {
      p := FlatMembersSound(path, j, SortedKeys(j.members.Keys), s);
    }
  }

  lemma {:induction false} FlatItemsSound(path: string, j: Json, n: nat, s: string) returns (p: Pointer)
    requires FitsSizeType(j) && j.Array? && n <= |j.items| && s in FlatItems(path, j, n)
    ensures IsLeaf(j, p) && s == path + Print(p) && FlatItems(path, j, n)[s] == Leaf(j, p)
    decreases j, 0, n
  {
    var t, c := Digits(n - 1), j.items[n - 1];
    if s in Flat(path + "/" + t, c) {
      var q := FlatIsSound(path + "/" + t, c, s);
      p := [t] + q;
      ItemOpens(j, n - 1);
      LeafBelow(j, t, q);
      PathBelow(path, t, q);
    } else {
      p := FlatItemsSound(path, j, n - 1, s);
    }
  }

  lemma {:induction false} FlatMembersSound(path: string, j: Json, keys: seq<string>, s: string) returns (p: Pointer)
    requires FitsSizeType(j) && j.Object? && forall k | k in keys :: k in j.members
    requires s in FlatMembers(path, j, keys)
    ensures IsLeaf(j, p) && s == path + Print(p) && FlatMembers(path, j, keys)[s] == Leaf(j, p)
    decreases j, 0, |keys|
  {
    var k := keys[|keys| - 1];
    if s in Flat(path + "/" + Escape(k), j.members[k]) {
      var q := FlatIsSound(path + "/" + Escape(k), j.members[k], s);
      p := [k] + q;
      LeafBelow(j, k, q);
      PathBelow(path, k, q);
    } else {
      p := FlatMembersSound(path, j, keys[..|keys| - 1], s);
    }
  }

  lemma {:induction false} FlatItemsHas(path: string, j: Json, n: nat, i: nat, s: string)
    requires j.Array? && i < n <= |j.items| && s in Flat(path + "/" + Digits(i), j.items[i])
    ensures s in FlatItems(path, j, n)
  {
    if i < n - 1 { FlatItemsHas(path, j, n - 1, i, s); }
  }

  lemma {:induction false} FlatMembersHas(path: string, j: Json, keys: seq<string>, i: nat, s: string)
    requires j.Object? && (forall k | k in keys :: k in j.members) && i < |keys|
    requires s in Flat(path + "/" + Escape(keys[i]), j.members[keys[i]])
    ensures s in FlatMembers(path, j, keys)
    decreases |keys|
  {
    if i < |keys| - 1 { FlatMembersHas(path, j, keys[..|keys| - 1], i, s); }
  }

  /** Every leaf has its entry. */
  lemma {:induction false} FlatIsComplete(path: string, j: Json, p: Pointer)
    requires FitsSizeType(j) && IsLeaf(j, p)
    ensures path + Print(p) in Flat(path, j) && Flat(path, j)[path + Print(p)] == Leaf(j, p)
    decreases |p|
  {
    FlatMentions(path, j, p);
    var q := FlatIsSound(path, j, path + Print(p));
    assert (path + Print(p))[|path|..] == Print(p) && (path + Print(q))[|path|..] == Print(q);
    PrintInjective(p, q);
  }

  lemma {:induction false} FlatMentions(path: string, j: Json, p: Pointer)
    requires FitsSizeType(j) && IsLeaf(j, p)
    ensures path + Print(p) in Flat(path, j)
    decreases |p|
  {
    if p == [] {
      assert path + Print(p) == path;
    } else {
      var t, q := p[0], p[1..];
      var f := Open(Checked, j, t).value;
      assert p == [t] + q;
      PathBelow(path, t, q);
      FlatMentions(path + "/" + Escape(t), Peek(f), q);
      if j.Array? {
        ArrayIndexIsDigits(t, f.slot.index);
        EscapeDigits(t);
        FlatItemsHas(path, j, |j.items|, f.slot.index, path + Print(p));
      } else {
        var keys := SortedKeys(j.members.Keys);
        var i :| 0 <= i < |keys| && keys[i] == t;
        FlatMembersHas(path, j, keys, i, path + Print(p));
      }
    }
  }

  lemma {:induction false} HasLeaf(j: Json) returns (p: Pointer)
    requires FitsSizeType(j)
    ensures IsLeaf(j, p)
  {
    p := [];
    if !Childless(j) {
      if j.Array? {
        ItemOpens(j, 0);
        var q := HasLeaf(j.items[0]);
        p := [Digits(0)] + q;
      } else {
        var k :| k in j.members;
        var q := HasLeaf(j.members[k]);
        p := [k] + q;
      }
      assert p[1..] == p[1..];
      LeafBelow(j, p[0], p[1..]);
      assert p == [p[0]] + p[1..];
    }
  }

  // ----- unflatten

  /** The loop of `unflatten` over the remaining keys. */
  function UnflattenFrom(d: Json, m: map<string, Json>, keys: seq<string>): Result<Json>
    requires forall k | k in keys :: k in m
    decreases |keys|
  {
    if keys == [] then Ok(d)
    else if !IsPrimitive(m[keys[0]]) then Err(TypeError(315))
    else
      var ptr :- Parse(keys[0]);
      var next :- EditAt(Creating, d, ptr, Assign(m[keys[0]]));
      UnflattenFrom(next, m, keys[1..])
  }

  function Unflatten(value: Json): Result<Json> {
    if !value.Object? then Err(TypeError(314))
    else UnflattenFrom(Null, value.members, SortedKeys(value.members.Keys))
  }

  method UnflattenValue(value: Json) returns (r: Result<Json>)
    ensures r == Unflatten(value)
  {
    if !value.Object? { return Err(TypeError(314)); }
    var m, result := value.members, Null;
    var keys := SortedKeys(m.Keys);
    assert keys[0..] == keys;
    for i := 0 to |keys|
      invariant UnflattenFrom(result, m, keys[i..]) == UnflattenFrom(Null, m, keys)
    {
      assert keys[i..][0] == keys[i] && keys[i..][1..] == keys[i + 1..];
      var element := m[keys[i]];
      if !IsPrimitive(element) { return Err(TypeError(315)); }
      var ptr := Split(keys[i]);
      if ptr.Err? { return Err(ptr.error); }
      var cursor := GetAndCreate(result, ptr.value);
      if cursor.Err? { return Err(cursor.error); }
      result := Rebuild(cursor.value.trail, element);
    }
    r := Ok(result);
  }

  /** The document with every empty container replaced by null. */
  function Prune(j: Json): Json {
    if Childless(j) then LeafValue(j)
    else
      match j
      case Array(a) => Array(seq(|a|, i requires 0 <= i < |a| => Prune(a[i])))
      case Object(m) => Object(map k | k in m :: Prune(m[k]))
      case _ => j
  }
}
