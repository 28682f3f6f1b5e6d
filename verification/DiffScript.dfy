/** The loops of `diff`, which build the patch document itself. */
module DiffScript {
  import opened Text
  import opened Escaping
  import opened Values
  import opened Pointers
  import opened Patch
  import opened Locality
  import opened Diffing

  lemma {:induction false} EscapePlain(s: string)
    requires '~' !in s && '/' !in s
    ensures Escape(s) == s
  {
    if s != "" { EscapePlain(s[1..]); }
  }

  /** The string form of a one-token pointer below `path`. */
  lemma PathOfToken(path: string, t: string)
    ensures path + Print([t]) == path + "/" + Escape(t)
    ensures t == "-" || AllDigits(t) ==> path + Print([t]) == path + "/" + t
  {
    assert [t] + [] == [t];
    PrintCons(t, []);
    assert path + ("/" + Escape(t) + "") == path + "/" + Escape(t);
    if t == "-" || AllDigits(t) { EscapePlain(t); }
  }

  function ReplaceEntry(path: string, v: Json): Json {
    Object(map["op" := String("replace"), "path" := String(path), "value" := v])
  }

  function RemoveEntry(path: string): Json {
    Object(map["op" := String("remove"), "path" := String(path)])
  }

  function AddEntry(path: string, v: Json): Json {
    Object(map["op" := String("add"), "path" := String(path), "value" := v])
  }

  lemma EncodeOne(path: string, op: Op)
    ensures EncodeAll(path, [op]) == [Encode(path, op)]
  {
  }

  lemma EncodeRoot(path: string, v: Json)
    ensures EncodeAll(path, [Replace([], v)]) == [ReplaceEntry(path, v)]
  {
    EncodeOne(path, Replace([], v));
    assert path + Print([]) == path;
  }

  lemma EncodeRemove(path: string, t: string)
    ensures EncodeAll(path, [Remove([t])]) == [RemoveEntry(path + "/" + Escape(t))]
    ensures AllDigits(t) ==> EncodeAll(path, [Remove([t])]) == [RemoveEntry(path + "/" + t)]
  {
    EncodeOne(path, Remove([t]));
    PathOfToken(path, t);
  }

  lemma EncodeAdd(path: string, t: string, v: Json)
    ensures EncodeAll(path, [Add([t], v)]) == [AddEntry(path + "/" + Escape(t), v)]
    ensures t == "-" ==> EncodeAll(path, [Add([t], v)]) == [AddEntry(path + "/-", v)]
  {
    EncodeOne(path, Add([t], v));
    PathOfToken(path, t);
    assert t == "-" ==> path + "/" + t == path + "/-";
  }

  /** `diff`: the entries state the operations of `DiffOps`, below `path`. */
  method Diff(source: Json, target: Json, path: string) returns (result: Json)
    ensures result == Array(EncodeAll(path, DiffOps(source, target)))
    decreases source, 1
  {
    if Equal(source, target) {
      assert EncodeAll(path, []) == [];
      return Array([]);
    }
    if KindOf(source) == KindOf(target) {
      if source.Array? {
        result := DiffArrays(source, target, path);
        return;
      } else if source.Object? {
        result := DiffObjects(source, target, path);
        return;
      }
    }
    EncodeRoot(path, target);
    result := Array([ReplaceEntry(path, target)]);
  }

  /** With the encoding of `ops` behind them, `entries` are the whole script. */
  ghost predicate Pending(path: string, entries: seq<Json>, ops: seq<Op>, whole: seq<Op>) {
    entries + EncodeAll(path, ops) == EncodeAll(path, whole)
  }

  lemma PendingStep(path: string, entries: seq<Json>, head: seq<Op>, tail: seq<Op>, whole: seq<Op>)
    requires Pending(path, entries, head + tail, whole)
    ensures Pending(path, entries + EncodeAll(path, head), tail, whole)
  {
    EncodeAllConcat(path, head, tail);
    assert entries + (EncodeAll(path, head) + EncodeAll(path, tail))
        == (entries + EncodeAll(path, head)) + EncodeAll(path, tail);
  }

  lemma PendingEnds(path: string, entries: seq<Json>, whole: seq<Op>)
    ensures Pending(path, [], whole, whole)
    ensures Pending(path, entries, [], whole) <==> entries == EncodeAll(path, whole)
  {
    assert EncodeAll(path, []) == [] && entries + [] == entries;
    assert [] + EncodeAll(path, whole) == EncodeAll(path, whole);
  }

  method DiffArrays(source: Json, target: Json, path: string) returns (result: Json)
    requires source.Array? && target.Array? && !Equal(source, target)
    ensures result == Array(EncodeAll(path, DiffOps(source, target)))
    decreases source, 0
  {
    var s, t, entries: seq<Json> := source.items, target.items, [];
    ghost var n := Min(|s|, |t|);
    // first pass: common elements
    var i := 0;
    ghost var edits := ItemEdits(source, target, 0);
    PendingEnds(path, [], edits);
    while i < |s| && i < |t|
      invariant 0 <= i <= n
      invariant Pending(path, entries, ItemEdits(source, target, i), edits)
    {
      var temp := Diff(s[i], t[i], path + "/" + Digits(i));
      EscapePlain(Digits(i));
      EncodeUnder(path, Digits(i), DiffOps(s[i], t[i]));
      PendingStep(path, entries, Under(Digits(i), DiffOps(s[i], t[i])), ItemEdits(source, target, i + 1), edits);
      entries := entries + temp.items;
      i := i + 1;
    }
    PendingEnds(path, entries, edits);
    // second pass: the remaining elements
    entries := RemoveRest(entries, edits, path, |t|, |s|, i);
    i := if i < |s| then |s| else i;
    entries := AppendRest(entries, edits + Removals(n, |s|), path, t, i);
    assert |s| <= |t| ==> i == n;
    assert |s| > |t| ==> t[n..] == [];
    result := Array(entries);
  }

  /** Removals go in front of earlier ones, so that they will run from the back. */
  method RemoveRest(first: seq<Json>, ghost edits: seq<Op>, path: string, ghost bound: nat, size: nat, start: nat)
    returns (entries: seq<Json>)
    requires first == EncodeAll(path, edits) && start == Min(size, bound)
    ensures entries == EncodeAll(path, edits + Removals(start, size))
  {
    entries := first;
    var i, endIndex := start, |first|;
    EncodeAllConcat(path, edits, []);
    assert edits + [] == edits;
    while i < size
      invariant start <= i <= size
      invariant entries == EncodeAll(path, edits + Removals(start, i))
    {
      EncodeRemove(path, Digits(i));
      EncodeAllConcat(path, [Remove([Digits(i)])], Removals(start, i));
      EncodeAllConcat(path, edits, Removals(start, i));
      EncodeAllConcat(path, edits, Removals(start, i + 1));
      var entry := RemoveEntry(path + "/" + Digits(i));
      entries := entries[..endIndex] + [entry] + entries[endIndex..];
      i := i + 1;
    }
  }

  method AppendRest(first: seq<Json>, ghost before: seq<Op>, path: string, t: seq<Json>, start: nat)
    returns (entries: seq<Json>)
    requires first == EncodeAll(path, before)
    ensures entries == EncodeAll(path, before + Appends(if start <= |t| then t[start..] else []))
  {
    entries := first;
    var i := start;
    ghost var more := if start <= |t| then t[start..] else [];
    ghost var whole := before + Appends(more);
    EncodeAllConcat(path, before, Appends(more));
    while i < |t|
      invariant start <= i && (i <= |t| || i == start)
      invariant Pending(path, entries, Appends(if i <= |t| then t[i..] else []), whole)
    {
      EncodeAdd(path, "-", t[i]);
      assert t[i..][1..] == t[i + 1..] && t[i..][0] == t[i];
      PendingStep(path, entries, [Add(["-"], t[i])], Appends(t[i + 1..]), whole);
      entries := entries + [AddEntry(path + "/-", t[i])];
      i := i + 1;
    }
    PendingEnds(path, entries, whole);
  }

  method DiffObjects(source: Json, target: Json, path: string) returns (result: Json)
    requires source.Object? && target.Object? && !Equal(source, target)
    ensures result == Array(EncodeAll(path, DiffOps(source, target)))
    decreases source, 0
  {
    var s, t, entries: seq<Json> := source.members, target.members, [];
    // first pass: the members of the source
    var keys := SortedKeys(s.Keys);
    ghost var edits := MemberEdits(source, target, keys);
    PendingEnds(path, [], edits);
    assert keys[0..] == keys;
    for i := 0 to |keys|
      invariant Pending(path, entries, MemberEdits(source, target, keys[i..]), edits)
    {
      var k := keys[i];
      assert keys[i..][0] == k && keys[i..][1..] == keys[i + 1..];
      ghost var tail := MemberEdits(source, target, keys[i + 1..]);
      var escaped := EscapeToken(k);
      var pathKey := path + "/" + escaped;
      if k in t {
        var temp := Diff(s[k], t[k], pathKey);
        EncodeUnder(path, k, DiffOps(s[k], t[k]));
        PendingStep(path, entries, Under(k, DiffOps(s[k], t[k])), tail, edits);
        entries := entries + temp.items;
      } else {
        EncodeRemove(path, k);
        PendingStep(path, entries, [Remove([k])], tail, edits);
        entries := entries + [RemoveEntry(pathKey)];
      }
    }
    PendingEnds(path, entries, edits);
    entries := AddMissing(entries, edits, path, s, t);
    result := Array(entries);
  }

  /** Second pass over objects: the members only the target has. */
  method AddMissing(first: seq<Json>, ghost before: seq<Op>, path: string, s: map<string, Json>, t: map<string, Json>)
    returns (entries: seq<Json>)
    requires first == EncodeAll(path, before)
    ensures entries == EncodeAll(path, before + Additions(s, t, SortedKeys(t.Keys)))
  {
    entries := first;
    var keys := SortedKeys(t.Keys);
    ghost var whole := before + Additions(s, t, keys);
    EncodeAllConcat(path, before, Additions(s, t, keys));
    assert keys[0..] == keys;
    for i := 0 to |keys|
      invariant Pending(path, entries, Additions(s, t, keys[i..]), whole)
    {
      var k := keys[i];
      assert keys[i..][0] == k && keys[i..][1..] == keys[i + 1..];
      ghost var tail := Additions(s, t, keys[i + 1..]);
      if k !in s {
        var escaped := EscapeToken(k);
        EncodeAdd(path, k, t[k]);
        PendingStep(path, entries, [Add([k], t[k])], tail, whole);
        entries := entries + [AddEntry(path + "/" + escaped, t[k])];
      } else {
        assert [] + tail == tail;
      }
    }
    PendingEnds(path, entries, whole);
  }
}
