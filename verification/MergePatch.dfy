/** JSON Merge Patch (RFC 7396): `merge_patch`. */
module MergePatch {
  import opened Outcomes
  import opened Text
  import opened Values

  function MembersOf(j: Json): map<string, Json> {
    if j.Object? then j.members else map[]
  }

  function MemberOr(m: map<string, Json>, k: string): Json {
    if k in m then m[k] else Null
  }

  /** The function of section 2 of RFC 7396, all members at once: null removes, any
      other member merges, a patch that is no object replaces. */
  function Merge(target: Json, patch: Json): Json
    decreases patch
  {
    if !patch.Object? then patch
    else
      var t, p := MembersOf(target), patch.members;
      Object(map k | k in t.Keys + p.Keys && !(k in p && p[k].Null?) ::
        if k in p then Merge(MemberOr(t, k), p[k]) else t[k])
  }

  /** `m` is `t` with the members of `p` under `done` merged into it. */
  ghost predicate MergedUnder(t: map<string, Json>, p: map<string, Json>, done: seq<string>, m: map<string, Json>) {
    && (forall k :: k in m <==> (k in t || (k in p && k in done)) && !(k in p && k in done && p[k].Null?))
    && (forall k | k in m :: m[k] == if k in p && k in done then Merge(MemberOr(t, k), p[k]) else t[k])
  }

  lemma MergeOne(t: map<string, Json>, p: map<string, Json>, done: seq<string>, m: map<string, Json>, k: string)
    requires MergedUnder(t, p, done, m) && k in p && k !in done
    ensures p[k].Null? ==> MergedUnder(t, p, done + [k], m - {k})
    ensures !p[k].Null? ==> MergedUnder(t, p, done + [k], m[k := Merge(MemberOr(m, k), p[k])])
  {
    assert k in m <==> k in t;
    assert MemberOr(m, k) == MemberOr(t, k);
    assert forall x :: x in done + [k] <==> x in done || x == k;
  }

  lemma MergedAll(target: Json, patch: Json, done: seq<string>, m: map<string, Json>)
    requires patch.Object? && MergedUnder(MembersOf(target), patch.members, done, m)
    requires forall k | k in patch.members :: k in done
    ensures Object(m) == Merge(target, patch)
  {
    var r := Merge(target, patch).members;
    assert m.Keys == r.Keys;
    assert m == r;
  }

  /** The loop of `merge_patch`, member by member in key order. */
  method MergePatch(target: Json, patch: Json) returns (r: Json)
    ensures r == Merge(target, patch)
    decreases patch
  {
    if !patch.Object? { return patch; }
    r := if target.Object? then target else Object(map[]);
    var p := patch.members;
    var keys := SortedKeys(p.Keys);
    ghost var t := MembersOf(target);
    for i := 0 to |keys|
      invariant r.Object? && MergedUnder(t, p, keys[..i], r.members)
    {
      var k := keys[i];
      assert k !in keys[..i] by {
        if j :| 0 <= j < i && keys[j] == k { SortedDistinct(keys, i, j); }
      }
      assert keys[..i + 1] == keys[..i] + [k];
      MergeOne(t, p, keys[..i], r.members, k);
      if p[k].Null? {
        r := Object(r.members - {k});
      } else {
        var child := MergePatch(MemberOr(r.members, k), p[k]);
        r := Object(r.members[k := child]);
      }
    }
    assert keys[..|keys|] == keys;
    MergedAll(target, patch, keys, r.members);
  }

  /** Applying the same patch again changes nothing. */
  lemma {:induction false} MergeIdempotent(target: Json, patch: Json)
    ensures Merge(Merge(target, patch), patch) == Merge(target, patch)
    decreases patch
  {
    if patch.Object? {
      var once, twice := Merge(target, patch).members, Merge(Merge(target, patch), patch).members;
      forall k | k in once ensures k in twice && twice[k] == once[k] {
        if k in patch.members { MergeIdempotent(MemberOr(MembersOf(target), k), patch.members[k]); }
      }
      assert twice.Keys == once.Keys;
      assert twice == once;
    }
  }

  /** No member reachable through objects only is null. */
  predicate NullFree(j: Json) {
    j.Object? ==> forall k | k in j.members :: !j.members[k].Null? && NullFree(j.members[k])
  }

  /** Merging into a null-free document, such as null, leaves no null member behind. */
  lemma {:induction false} MergeIsNullFree(target: Json, patch: Json)
    requires NullFree(target)
    ensures NullFree(Merge(target, patch))
    decreases patch
  {
    if patch.Object? {
      var t, r := MembersOf(target), Merge(target, patch).members;
      forall k | k in r ensures !r[k].Null? && NullFree(r[k]) {
        if k in patch.members { MergeIsNullFree(MemberOr(t, k), patch.members[k]); }
      }
    }
  }

  /** A patch without null members acts as an overlay: applied to null it yields itself. */
  lemma {:induction false} MergeOntoNull(patch: Json)
    ensures Merge(Null, patch) == patch <==> NullFree(patch)
    decreases patch
  {
    if patch.Object? {
      var p, r := patch.members, Merge(Null, patch).members;
      forall k | k in p && !p[k].Null? ensures r[k] == p[k] <==> NullFree(p[k]) {
        MergeOntoNull(p[k]);
      }
      if NullFree(patch) {
        assert r == p;
      } else {
        var k :| k in p && !(!p[k].Null? && NullFree(p[k]));
        assert p[k].Null? ==> k !in r;
      }
    }
  }

  // ----- what the result holds at every place

  /** The value that a chain of keys leads to, through objects only. */
  function Reach(j: Json, keys: seq<string>): Result<Json>
    decreases |keys|
  {
    if keys == [] then Ok(j)
    else if j.Object? && keys[0] in j.members then Reach(j.members[keys[0]], keys[1..])
    else Err(OutOfRange(403))
  }

  lemma ReachMember(j: Json, k: string, rest: seq<string>)
    ensures Reach(j, [k] + rest) ==
            if j.Object? && k in j.members then Reach(j.members[k], rest) else Err(OutOfRange(403))
  {
    assert ([k] + rest)[1..] == rest;
  }

  /** Where the patch holds a value other than null and objects, the result holds the
      same value, whatever the target. */
  lemma {:induction false} MergeSets(target: Json, patch: Json, keys: seq<string>)
    requires Reach(patch, keys).Ok? && !Reach(patch, keys).value.Null? && !Reach(patch, keys).value.Object?
    ensures Reach(Merge(target, patch), keys) == Reach(patch, keys)
    decreases |keys|
  {
    if keys != [] {
      MergeSets(MemberOr(MembersOf(target), keys[0]), patch.members[keys[0]], keys[1..]);
    }
  }

  /** Where the patch holds an object, so does the result. */
  lemma {:induction false} MergeDescends(target: Json, patch: Json, keys: seq<string>)
    requires Reach(patch, keys).Ok? && Reach(patch, keys).value.Object?
    ensures Reach(Merge(target, patch), keys).Ok? && Reach(Merge(target, patch), keys).value.Object?
    decreases |keys|
  {
    if keys != [] {
      MergeDescends(MemberOr(MembersOf(target), keys[0]), patch.members[keys[0]], keys[1..]);
    }
  }

  /** Where the patch holds a null member, the result has no member. */
  lemma {:induction false} MergeRemoves(target: Json, patch: Json, keys: seq<string>)
    requires Reach(patch, keys) == Ok(Null)
    ensures if keys == [] then Merge(target, patch) == Null else Reach(Merge(target, patch), keys).Err?
    decreases |keys|
  {
    if |keys| > 1 {
      MergeRemoves(MemberOr(MembersOf(target), keys[0]), patch.members[keys[0]], keys[1..]);
    }
  }

  /** The patch leads to an object that does not mention the next key. */
  predicate Unmentioned(patch: Json, keys: seq<string>)
    decreases |keys|
  {
    keys != [] && patch.Object? &&
    (keys[0] in patch.members ==> Unmentioned(patch.members[keys[0]], keys[1..]))
  }

  lemma {:induction false} UnmentionedIs(patch: Json, keys: seq<string>)
    ensures Unmentioned(patch, keys) <==>
            exists n | 0 <= n < |keys| :: var r := Reach(patch, keys[..n]);
                                          r.Ok? && r.value.Object? && keys[n] !in r.value.members
    decreases |keys|
  {
    if keys != [] && patch.Object? && keys[0] in patch.members {
      var k, rest := keys[0], keys[1..];
      UnmentionedIs(patch.members[k], rest);
      forall n | 0 <= n < |rest|
        ensures Reach(patch, keys[..n + 1]) == Reach(patch.members[k], rest[..n]) && rest[n] == keys[n + 1] {
        assert keys[..n + 1] == [k] + rest[..n];
        ReachMember(patch, k, rest[..n]);
      }
      if n :| 0 <= n < |keys| && Reach(patch, keys[..n]).Ok? && Reach(patch, keys[..n]).value.Object?
              && keys[n] !in Reach(patch, keys[..n]).value.members {
        if n > 0 { assert Reach(patch.members[k], rest[..n - 1]).Ok?; }
      }
      if Unmentioned(patch, keys) {
        var n :| 0 <= n < |rest| && Reach(patch.members[k], rest[..n]).Ok?
                 && Reach(patch.members[k], rest[..n]).value.Object?
                 && rest[n] !in Reach(patch.members[k], rest[..n]).value.members;
        assert Reach(patch, keys[..n + 1]).Ok?;
      }
    } else if keys != [] {
      assert keys[..0] == [] && Reach(patch, keys[..0]) == Ok(patch);
      forall n | 0 < n < |keys| ensures Reach(patch, keys[..n]).Err? {
        assert keys[..n][0] == keys[0];
      }
    }
  }

  /** Where the patch does not mention a place, the result is as the target. */
  lemma {:induction false} MergeKeeps(target: Json, patch: Json, keys: seq<string>)
    requires Unmentioned(patch, keys)
    ensures Reach(Merge(target, patch), keys) == Reach(target, keys)
    decreases |keys|
  {
    var k, rest := keys[0], keys[1..];
    if k in patch.members {
      var before := MemberOr(MembersOf(target), k);
      MergeKeeps(before, patch.members[k], rest);
      assert rest != [];
    }
  }
}
