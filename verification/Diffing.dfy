/** `diff`: compiles two documents into a patch that turns one into the other. */
module Diffing {
  import opened Outcomes
  import opened Text
  import opened Escaping
  import opened Values
  import opened Pointers
  import opened Resolution
  import opened Patch
  import opened Locality
  import opened Ordering

  // ----- specification: operations relative to the two documents

  function Min(x: nat, y: nat): nat { if x < y then x else y }

  function DiffOps(a: Json, b: Json): seq<Op>
    decreases a, 2, 0
  {
    if Equal(a, b) then []
    else if KindOf(a) != KindOf(b) then [Replace([], b)]
    else
      match a
      case Array(x) =>
        var n := Min(|x|, |b.items|);
        ItemEdits(a, b, 0) + Removals(n, |x|) + Appends(b.items[n..])
      case Object(m) =>
        MemberEdits(a, b, SortedKeys(m.Keys)) + Additions(m, b.members, SortedKeys(b.members.Keys))
      case _ => [Replace([], b)]
  }

  /** The edits of the common elements from index `i` on. */
  function ItemEdits(a: Json, b: Json, i: nat): seq<Op>
    requires a.Array? && b.Array?
    decreases a, 1, Min(|a.items|, |b.items|) - i
  {
    if i >= Min(|a.items|, |b.items|) then []
    else Under(Digits(i), DiffOps(a.items[i], b.items[i])) + ItemEdits(a, b, i + 1)
  }

  /** Removal of the elements from `hi - 1` down to `lo`. */
  function Removals(lo: nat, hi: nat): (r: seq<Op>)
    decreases hi
  {
    if hi <= lo then [] else [Remove([Digits(hi - 1)])] + Removals(lo, hi - 1)
  }

  function Appends(items: seq<Json>): seq<Op> {
    if items == [] then [] else [Add(["-"], items[0])] + Appends(items[1..])
  }

  /** The edits of the members of `a` under `keys`. */
  function MemberEdits(a: Json, b: Json, keys: seq<string>): seq<Op>
    requires a.Object? && b.Object? && forall k | k in keys :: k in a.members
    decreases a, 1, |keys|
  {
    if keys == [] then []
    else
      var k := keys[0];
      (if k in b.members then Under(k, DiffOps(a.members[k], b.members[k])) else [Remove([k])])
      + MemberEdits(a, b, keys[1..])
  }

  /** The additions of the members of `n` under `keys` that `m` lacks. */
  function Additions(m: map<string, Json>, n: map<string, Json>, keys: seq<string>): seq<Op>
    requires forall k | k in keys :: k in n
  {
    if keys == [] then []
    else (if keys[0] in m then [] else [Add([keys[0]], n[keys[0]])]) + Additions(m, n, keys[1..])
  }

  /** What patching `a` with the script gives: `b`, except where the two were already
      equal, which stays as it is. */
  function Patched(a: Json, b: Json): Json
    decreases a
  {
    if Equal(a, b) then a
    else if KindOf(a) != KindOf(b) then b
    else
      match a
      case Array(x) =>
        var y := b.items;
        Array(seq(|y|, j requires 0 <= j < |y| => if j < |x| then Patched(x[j], y[j]) else y[j]))
      case Object(m) =>
        var n := b.members;
        Object(map k | k in n :: if k in m then Patched(m[k], n[k]) else n[k])
      case _ => b
  }

  // ----- the empty script

  lemma {:induction false} MemberEditsMention(a: Json, b: Json, keys: seq<string>, k: string)
    requires a.Object? && b.Object? && (forall k | k in keys :: k in a.members)
    requires k in keys && (k in b.members ==> DiffOps(a.members[k], b.members[k]) != [])
    ensures MemberEdits(a, b, keys) != []
    decreases |keys|
  {
    if k != keys[0] { MemberEditsMention(a, b, keys[1..], k); }
  }

  lemma {:induction false} AdditionsMention(m: map<string, Json>, n: map<string, Json>, keys: seq<string>, k: string)
    requires (forall k | k in keys :: k in n) && k in keys && k !in m
    ensures Additions(m, n, keys) != []
  {
    if k != keys[0] { AdditionsMention(m, n, keys[1..], k); }
  }

  lemma {:induction false} ItemEditsMention(a: Json, b: Json, i: nat, k: nat)
    requires a.Array? && b.Array? && i <= k < Min(|a.items|, |b.items|)
    requires DiffOps(a.items[k], b.items[k]) != []
    ensures ItemEdits(a, b, i) != []
    decreases k - i
  {
    hide DiffOps;
    if i < k { ItemEditsMention(a, b, i + 1, k); }
  }

  /** The script is empty exactly when the documents compare equal, NaN included. */
  lemma {:induction false} EmptyIffEqual(a: Json, b: Json)
    ensures DiffOps(a, b) == [] <==> Equal(a, b)
    decreases a
  {
    if !Equal(a, b) && KindOf(a) == KindOf(b) {
      match a
      case Array(x) =>
        var n := Min(|x|, |b.items|);
        if |x| == |b.items| {
          var i :| 0 <= i < |x| && !Equal(x[i], b.items[i]);
          EmptyIffEqual(x[i], b.items[i]);
          ItemEditsMention(a, b, 0, i);
        } else if |x| > n {
          assert Removals(n, |x|) != [];
        } else {
          assert Appends(b.items[n..]) != [];
        }
      case Object(m) =>
        var keys := SortedKeys(m.Keys);
        if k :| k in m && k !in b.members {
          MemberEditsMention(a, b, keys, k);
        } else if k :| k in b.members && k !in m {
          AdditionsMention(m, b.members, SortedKeys(b.members.Keys), k);
        } else {
          assert m.Keys == b.members.Keys;
          var k :| k in m && !Equal(m[k], b.members[k]);
          EmptyIffEqual(m[k], b.members[k]);
          MemberEditsMention(a, b, keys, k);
        }
      case _ =>
    }
  }

  // ----- the script only edits strictly below the root, or replaces it

  predicate AllInner(ops: seq<Op>) { forall i | 0 <= i < |ops| :: Inner(ops[i]) }

  lemma {:induction false} DiffIsInner(a: Json, b: Json)
    ensures AllInner(DiffOps(a, b))
    decreases a, 2, 0
  {
    if !Equal(a, b) && KindOf(a) == KindOf(b) {
      match a
      case Array(x) =>
        var n := Min(|x|, |b.items|);
        ItemEditsInner(a, b, 0); RemovalsInner(n, |x|); AppendsInner(b.items[n..]);
      case Object(m) =>
        MemberEditsInner(a, b, SortedKeys(m.Keys));
        AdditionsInner(m, b.members, SortedKeys(b.members.Keys));
      case _ =>
    }
  }

  lemma {:induction false} ItemEditsInner(a: Json, b: Json, i: nat)
    requires a.Array? && b.Array?
    ensures AllInner(ItemEdits(a, b, i))
    decreases a, 1, Min(|a.items|, |b.items|) - i
  {
    if i < Min(|a.items|, |b.items|) {
      DiffIsInner(a.items[i], b.items[i]);
      ItemEditsInner(a, b, i + 1);
    }
  }

  lemma {:induction false} MemberEditsInner(a: Json, b: Json, keys: seq<string>)
    requires a.Object? && b.Object? && forall k | k in keys :: k in a.members
    ensures AllInner(MemberEdits(a, b, keys))
    decreases a, 1, |keys|
  {
    if keys != [] {
      var k := keys[0];
      if k in b.members { DiffIsInner(a.members[k], b.members[k]); }
      MemberEditsInner(a, b, keys[1..]);
    }
  }

  lemma {:induction false} RemovalsInner(lo: nat, hi: nat)
    ensures AllInner(Removals(lo, hi))
    decreases hi
  {
    if hi > lo { RemovalsInner(lo, hi - 1); }
  }

  lemma {:induction false} AppendsInner(items: seq<Json>)
    ensures AllInner(Appends(items))
  {
    if items != [] { AppendsInner(items[1..]); }
  }

  lemma {:induction false} AdditionsInner(m: map<string, Json>, n: map<string, Json>, keys: seq<string>)
    requires forall k | k in keys :: k in n
    ensures AllInner(Additions(m, n, keys))
  {
    if keys != [] { AdditionsInner(m, n, keys[1..]); }
  }

  // ----- what patching with the script produces

  /** `c` is `b`, up to parts that were already equal and so were not touched. */
  predicate Matches(c: Json, b: Json) {
    || c == b
    || Equal(c, b)
    || (c.Array? && b.Array? && |c.items| == |b.items|
        && forall i | 0 <= i < |c.items| :: Matches(c.items[i], b.items[i]))
    || (c.Object? && b.Object? && c.members.Keys == b.members.Keys
        && forall k | k in c.members :: Matches(c.members[k], b.members[k]))
  }

  lemma {:induction false} MatchesIsEqual(c: Json, b: Json)
    requires Matches(c, b)
    ensures Equal(c, b) <==> Comparable(b)
  {
    EqualReflexive(b);
    if Equal(c, b) {
      EqualIsComparable(c, b);
    } else if c != b {
      if c.Array? {
        forall i | 0 <= i < |c.items| ensures Equal(c.items[i], b.items[i]) <==> Comparable(b.items[i]) {
          MatchesIsEqual(c.items[i], b.items[i]);
        }
      } else {
        forall k | k in c.members ensures Equal(c.members[k], b.members[k]) <==> Comparable(b.members[k]) {
          MatchesIsEqual(c.members[k], b.members[k]);
        }
      }
    }
  }

  lemma {:induction false} PatchedMatches(a: Json, b: Json)
    ensures Matches(Patched(a, b), b)
    decreases a
  {
    if !Equal(a, b) && KindOf(a) == KindOf(b) {
      match a
      case Array(x) =>
        var y, c := b.items, Patched(a, b).items;
        forall j | 0 <= j < |y| ensures Matches(c[j], y[j]) {
          if j < |x| { PatchedMatches(x[j], y[j]); }
        }
      case Object(m) =>
        var n, c := b.members, Patched(a, b).members;
        assert c.Keys == n.Keys;
        forall k | k in n ensures Matches(c[k], n[k]) {
          if k in m { PatchedMatches(m[k], n[k]); }
        }
      case _ =>
    }
  }

  lemma ReplaceRoot(a: Json, b: Json)
    ensures Run(a, [Replace([], b)]) == Ok(b)
  {
    RunOne(a, Replace([], b));
    assert Trace(Checked, a, []) == Ok(Cursor([], a));
  }

  /** The script turns `a` into exactly this document. */
  lemma {:induction false} DiffProduces(a: Json, b: Json)
    requires FitsSizeType(a) && FitsSizeType(b)
    ensures Run(a, DiffOps(a, b)) == Ok(Patched(a, b))
    decreases a, 2, 0
  {
    if Equal(a, b) {
    } else if KindOf(a) != KindOf(b) {
      ReplaceRoot(a, b);
    } else {
      match a
      case Array(x) => ArrayProduces(a, b);
      case Object(m) => ObjectProduces(a, b);
      case _ => ReplaceRoot(a, b);
    }
  }

  // arrays

  lemma ChildAt(s: seq<Json>, i: nat)
    requires i < |s| < SIZE_MAX
    ensures Open(Checked, Array(s), Digits(i)) == Ok(RawFocus(Array(s), Index(i)))
  {
    ArrayIndexIsDigits(Digits(i), i);
  }

  /** The first pass patches the common elements, one after the other. */
  lemma {:induction false} ItemEditsRun(a: Json, b: Json, i: nat, s: seq<Json>) returns (r: seq<Json>)
    requires a.Array? && b.Array? && FitsSizeType(a) && FitsSizeType(b)
    requires |s| == |a.items| && i <= Min(|a.items|, |b.items|) && s[i..] == a.items[i..]
    requires forall j | 0 <= j < i :: s[j] == Patched(a.items[j], b.items[j])
    ensures Run(Array(s), ItemEdits(a, b, i)) == Ok(Array(r)) && |r| == |a.items|
    ensures forall j | 0 <= j < Min(|a.items|, |b.items|) :: r[j] == Patched(a.items[j], b.items[j])
    decreases a, 1, Min(|a.items|, |b.items|) - i
  {
    if i == Min(|a.items|, |b.items|) {
      r := s;
    } else {
      assert s[i] == s[i..][0] == a.items[i];
      DiffProduces(s[i], b.items[i]);
      DiffIsInner(s[i], b.items[i]);
      hide DiffOps, Patched, Matches;
      var ops := DiffOps(s[i], b.items[i]);
      ChildAt(s, i);
      RunBelow(Array(s), Digits(i), ops);
      hide Open;
      var s' := s[i := Run(s[i], ops).value];
      assert s'[i + 1..] == s[i..][1..] == a.items[i + 1..];
      r := ItemEditsRun(a, b, i + 1, s');
      RunConcat(Array(s), Under(Digits(i), ops), ItemEdits(a, b, i + 1));
    }
  }

  lemma {:induction false} RemovalsRun(s: seq<Json>, lo: nat)
    requires lo <= |s| < SIZE_MAX
    ensures Run(Array(s), Removals(lo, |s|)) == Ok(Array(s[..lo]))
    decreases |s|
  {
    if lo == |s| {
      assert s[..lo] == s;
    } else {
      var last := |s| - 1;
      ArrayIndexIsDigits(Digits(last), last);
      assert Front([Digits(last)]) == [];
      assert EraseAt(s, last) == s[..last];
      assert Exec(Array(s), Remove([Digits(last)])) == Ok(Array(s[..last]));
      RemovalsRun(s[..last], lo);
      assert s[..last][..lo] == s[..lo];
      assert Removals(lo, |s|)[1..] == Removals(lo, last);
    }
  }

  lemma {:induction false} AppendsRun(s: seq<Json>, items: seq<Json>)
    ensures Run(Array(s), Appends(items)) == Ok(Array(s + items))
    decreases |items|
  {
    if items == [] {
      assert s + items == s;
    } else {
      assert Front(["-"]) == [];
      assert Exec(Array(s), Add(["-"], items[0])) == Ok(Array(s + [items[0]]));
      AppendsRun(s + [items[0]], items[1..]);
      assert s + [items[0]] + items[1..] == s + items;
      assert Appends(items)[1..] == Appends(items[1..]);
    }
  }

  lemma ArrayJoined(a: Json, b: Json, r: seq<Json>)
    requires a.Array? && b.Array? && !Equal(a, b) && |r| == |a.items|
    requires forall j | 0 <= j < Min(|a.items|, |b.items|) :: r[j] == Patched(a.items[j], b.items[j])
    ensures var n := Min(|a.items|, |b.items|); Array(r[..n] + b.items[n..]) == Patched(a, b)
  {
    assert r[..Min(|a.items|, |b.items|)] + b.items[Min(|a.items|, |b.items|)..] == Patched(a, b).items;
  }

  lemma ScriptOfThree(doc: Json, x: seq<Op>, y: seq<Op>, z: seq<Op>, d: Json, e: Json)
    requires Run(doc, x) == Ok(d) && Run(d, y) == Ok(e)
    ensures Run(doc, x + y + z) == Run(e, z)
  {
    RunConcat(doc, x, y);
    RunConcat(doc, x + y, z);
  }

  lemma {:induction false} ArrayProduces(a: Json, b: Json)
    requires a.Array? && b.Array? && !Equal(a, b) && FitsSizeType(a) && FitsSizeType(b)
    ensures Run(a, DiffOps(a, b)) == Ok(Patched(a, b))
    decreases a, 1, Min(|a.items|, |b.items|) + 1
  {
    var x, y := a.items, b.items;
    var n := Min(|x|, |y|);
    var r := ItemEditsRun(a, b, 0, x);
    RemovalsRun(r, n);
    AppendsRun(r[..n], y[n..]);
    ArrayJoined(a, b, r);
    hide Run, Patched, Equal, ItemEdits, Removals, Appends;
    ScriptOfThree(a, ItemEdits(a, b, 0), Removals(n, |x|), Appends(y[n..]), Array(r), Array(r[..n]));
  }

  // objects

  /** In `m`, the members under `keys` are still those of `a`; the others are
      patched, without the ones that `b` adds. */
  ghost predicate Halfway(a: Json, b: Json, keys: seq<string>, m: map<string, Json>)
    requires a.Object? && b.Object?
  {
    && (forall k | k in keys :: k in m && k in a.members && m[k] == a.members[k])
    && (forall k | k !in keys :: k in m <==> k in a.members && k in b.members)
    && (forall k | k in m && k !in keys ::
          k in a.members && k in b.members && m[k] == Patched(a.members[k], b.members[k]))
  }

  lemma {:induction false} MemberEditsRun(a: Json, b: Json, keys: seq<string>, m: map<string, Json>)
    returns (r: map<string, Json>)
    requires a.Object? && b.Object? && FitsSizeType(a) && FitsSizeType(b)
    requires Sorted(keys) && Halfway(a, b, keys, m)
    ensures Run(Object(m), MemberEdits(a, b, keys)) == Ok(Object(r))
    ensures Halfway(a, b, [], r)
    decreases a, 1, |keys|
  {
    if keys == [] {
      r := m;
    } else {
      var k, rest := keys[0], keys[1..];
      assert k !in rest by {
        if k in rest { var j :| 0 <= j < |rest| && rest[j] == k; SortedDistinct(keys, 0, j + 1); }
      }
      assert forall t :: t in keys <==> t == k || t in rest;
      var first, m' := [Remove([k])], m - {k};
      if k in b.members {
        var ops := DiffOps(m[k], b.members[k]);
        DiffProduces(m[k], b.members[k]);
        DiffIsInner(m[k], b.members[k]);
        RunBelow(Object(m), k, ops);
        first, m' := Under(k, ops), m[k := Run(m[k], ops).value];
      } else {
        assert Front([k]) == [];
        RunOne(Object(m), Remove([k]));
      }
      assert Run(Object(m), first) == Ok(Object(m'));
      r := MemberEditsRun(a, b, rest, m');
      RunConcat(Object(m), first, MemberEdits(a, b, rest));
    }
  }

  /** The members of `n` under `keys` that `m` lacks. */
  function Added(m: map<string, Json>, n: map<string, Json>, keys: seq<string>): map<string, Json>
    requires forall k | k in keys :: k in n
  {
    map k | k in keys && k !in m :: n[k]
  }

  lemma AddedStep(m: map<string, Json>, n: map<string, Json>, keys: seq<string>, r: map<string, Json>)
    requires keys != [] && forall k | k in keys :: k in n
    ensures r + Added(m, n, keys) == (if keys[0] in m then r else r[keys[0] := n[keys[0]]]) + Added(m, n, keys[1..])
  {
    assert keys == [keys[0]] + keys[1..];
  }

  lemma {:induction false} AdditionsRun(m: map<string, Json>, n: map<string, Json>, keys: seq<string>,
                                        r: map<string, Json>)
    requires forall k | k in keys :: k in n
    ensures Run(Object(r), Additions(m, n, keys)) == Ok(Object(r + Added(m, n, keys)))
    decreases |keys|
  {
    if keys == [] {
      assert r + Added(m, n, keys) == r;
    } else {
      var k, rest := keys[0], keys[1..];
      AddedStep(m, n, keys, r);
      if k in m {
        AdditionsRun(m, n, rest, r);
        assert [] + Additions(m, n, rest) == Additions(m, n, rest);
      } else {
        AdditionsRun(m, n, rest, r[k := n[k]]);
        assert Front([k]) == [];
        RunOne(Object(r), Add([k], n[k]));
        RunConcat(Object(r), [Add([k], n[k])], Additions(m, n, rest));
      }
    }
  }

  lemma ObjectJoined(a: Json, b: Json, r: map<string, Json>)
    requires a.Object? && b.Object? && !Equal(a, b) && Halfway(a, b, [], r)
    ensures Object(r + Added(a.members, b.members, SortedKeys(b.members.Keys))) == Patched(a, b)
  {
    hide Equal, SortedKeys;
    var m, n, all := a.members, b.members, SortedKeys(b.members.Keys);
    var c, d := r + Added(m, n, all), Patched(a, b).members;
    assert d.Keys == n.Keys;
    forall k ensures k in c <==> k in n { assert k in all <==> k in n; }
    forall k | k in n ensures c[k] == d[k] {
      if k in m { assert k in r && k !in Added(m, n, all); } else { assert k !in r && k in Added(m, n, all); }
    }
    assert c == d;
  }

  lemma {:induction false} ObjectProduces(a: Json, b: Json)
    requires a.Object? && b.Object? && !Equal(a, b) && FitsSizeType(a) && FitsSizeType(b)
    ensures Run(a, DiffOps(a, b)) == Ok(Patched(a, b))
    decreases a, 1, |SortedKeys(a.members.Keys)| + 1
  {
    var m, n := a.members, b.members;
    var keys, all := SortedKeys(m.Keys), SortedKeys(n.Keys);
    var r := MemberEditsRun(a, b, keys, m);
    AdditionsRun(m, n, all, r);
    ObjectJoined(a, b, r);
    hide Run, Patched, Equal, MemberEdits, Additions, Halfway, Added;
    RunConcat(a, MemberEdits(a, b, keys), Additions(m, n, all));
  }

  // ----- the patch document

  /** The round trip: patching `a` with the script of `diff(a, b)` never fails, and
      the outcome compares equal to `b` exactly when `b` holds no NaN and no
      discarded value (`operator==` would not even accept `b` itself then). */
  lemma RoundTrip(a: Json, b: Json)
    requires FitsSizeType(a) && FitsSizeType(b)
    ensures var r := RunPatch(a, Array(EncodeAll("", DiffOps(a, b))));
            r == Ok(Patched(a, b)) && Matches(r.value, b) && (Equal(r.value, b) <==> Comparable(b))
  {
    RunEncoded(a, DiffOps(a, b));
    DiffProduces(a, b);
    PatchedMatches(a, b);
    MatchesIsEqual(Patched(a, b), b);
  }

  /** All numbers in the document are of this type. */
  predicate NumbersAre(kind: Kind, j: Json) {
    match j
    case Array(x) => forall i | 0 <= i < |x| :: NumbersAre(kind, x[i])
    case Object(m) => forall k | k in m :: NumbersAre(kind, m[k])
    case _ => IsNumber(j) ==> KindOf(j) == kind
  }

  lemma {:induction false} EqualOfOneKind(kind: Kind, a: Json, b: Json)
    requires NumbersAre(kind, a) && NumbersAre(kind, b) && Equal(a, b)
    ensures SameKinds(a, b)
  {
    if KindOf(a) != KindOf(b) { EqualAcrossKinds(a, b); }
    match (a, b)
    case (Array(x), Array(y)) =>
      forall i | 0 <= i < |x| ensures SameKinds(x[i], y[i]) { EqualOfOneKind(kind, x[i], y[i]); }
    case (Object(m), Object(n)) => forall k | k in m ensures SameKinds(m[k], n[k]) { EqualOfOneKind(kind, m[k], n[k]); }
    case _ =>
  }

  lemma {:induction false} PatchedOfOneKind(kind: Kind, a: Json, b: Json)
    requires NumbersAre(kind, a) && NumbersAre(kind, b)
    ensures Patched(a, b) == b
    decreases a
  {
    if Equal(a, b) {
      EqualOfOneKind(kind, a, b);
      EqualIsIdentity(a, b);
    } else if KindOf(a) == KindOf(b) {
      match a
      case Array(x) =>
        forall j | 0 <= j < |b.items| ensures Patched(a, b).items[j] == b.items[j] {
          if j < |x| { PatchedOfOneKind(kind, x[j], b.items[j]); }
        }
        assert Patched(a, b).items == b.items;
      case Object(m) =>
        forall k | k in b.members ensures Patched(a, b).members[k] == b.members[k] {
          if k in m { PatchedOfOneKind(kind, m[k], b.members[k]); }
        }
        assert Patched(a, b).members == b.members;
      case _ =>
    }
  }

  /** Where all numbers are of one type, the outcome is `b` itself, NaN and discarded
      values included: every text, byte, subtype, number, key and element. */
  lemma RoundTripIsIdentity(kind: Kind, a: Json, b: Json)
    requires FitsSizeType(a) && FitsSizeType(b) && NumbersAre(kind, a) && NumbersAre(kind, b)
    ensures RunPatch(a, Array(EncodeAll("", DiffOps(a, b)))) == Ok(b)
  {
    RoundTrip(a, b);
    PatchedOfOneKind(kind, a, b);
  }

  lemma {:induction false} PatchedIsExact(p: Numbers, a: Json, b: Json)
    requires Exact(p, a) && Exact(p, b)
    ensures Exact(p, Patched(a, b))
    decreases a
  {
    if !Equal(a, b) && KindOf(a) == KindOf(b) {
      match a
      case Array(x) =>
        forall j | 0 <= j < |b.items| ensures Exact(p, Patched(a, b).items[j]) {
          if j < |x| { PatchedIsExact(p, x[j], b.items[j]); }
        }
      case Object(m) =>
        forall k | k in b.members ensures Exact(p, Patched(a, b).members[k]) {
          if k in m { PatchedIsExact(p, m[k], b.members[k]); }
        }
      case _ =>
    }
  }

  /** With mixed numbers that are exact, the outcome is the same tree as `b`, with numbers
      of the same value, and the same subtypes of binary values. */
  lemma RoundTripOfExact(p: Numbers, a: Json, b: Json)
    requires FitsSizeType(a) && FitsSizeType(b) && Exact(p, a) && Exact(p, b)
    ensures var r := RunPatch(a, Array(EncodeAll("", DiffOps(a, b))));
            r.Ok? && Exact(p, r.value) && Canon(r.value) == Canon(b) && SameSubtypes(r.value, b)
  {
    RoundTrip(a, b);
    PatchedIsExact(p, a, b);
    EqualIsSameTree(p, Patched(a, b), b);
  }

  // ----- where the script edits

  /** The operation is an add, a remove or a replace at a place such that neither this nor
      any place above it holds equal values in both documents; a replace puts in what `b`
      holds there, but not an array for an array or an object for an object. */
  ghost predicate Aims(a: Json, b: Json, op: Op) {
    && (op.Add? || op.Remove? || op.Replace?)
    && (forall n | 0 <= n <= |op.ptr| && At(a, op.ptr[..n]).Ok? && At(b, op.ptr[..n]).Ok? ::
          !Equal(At(a, op.ptr[..n]).value, At(b, op.ptr[..n]).value))
    && (op.Replace? ==>
          && At(a, op.ptr).Ok? && At(b, op.ptr) == Ok(op.value)
          && !(At(a, op.ptr).value.Array? && op.value.Array?) && !(At(a, op.ptr).value.Object? && op.value.Object?))
    && (op.Remove? ==> At(a, op.ptr).Ok? && At(b, op.ptr).Err?)
    && (op.Add? ==> At(a, op.ptr).Err?)
  }

  lemma AimsAtRoot(a: Json, b: Json)
    requires !Equal(a, b) && !(a.Array? && b.Array?) && !(a.Object? && b.Object?)
    ensures Aims(a, b, Replace([], b))
  {
  }

  /** An operation that aims at the children at `t` aims, below `t`, at the documents. */
  lemma AimsBelow(a: Json, b: Json, t: string, op: Op)
    requires !Equal(a, b) && Open(Checked, a, t).Ok? && Open(Checked, b, t).Ok?
    requires Aims(Peek(Open(Checked, a, t).value), Peek(Open(Checked, b, t).value), op)
    ensures Aims(a, b, Prefixed(t, op))
  {
    var x, y := Peek(Open(Checked, a, t).value), Peek(Open(Checked, b, t).value);
    var ptr := [t] + op.ptr;
    assert Prefixed(t, op).ptr == ptr;
    AtBelow(a, t, op.ptr);
    AtBelow(b, t, op.ptr);
    forall n | 0 <= n <= |ptr| && At(a, ptr[..n]).Ok? && At(b, ptr[..n]).Ok?
      ensures !Equal(At(a, ptr[..n]).value, At(b, ptr[..n]).value)
    {
      if n == 0 {
        assert ptr[..0] == [];
      } else {
        assert ptr[..n] == [t] + op.ptr[..n - 1];
        AtBelow(a, t, op.ptr[..n - 1]);
        AtBelow(b, t, op.ptr[..n - 1]);
      }
    }
  }

  /** An add or remove right below two unequal containers. */
  lemma AimsAtChild(a: Json, b: Json, t: string, op: Op)
    requires !Equal(a, b) && op.ptr == [t] && (op.Add? || op.Remove?)
    requires op.Add? ==> Open(Checked, a, t).Err?
    requires op.Remove? ==> Open(Checked, a, t).Ok? && Open(Checked, b, t).Err?
    ensures Aims(a, b, op)
  {
    assert [t][..0] == [] && [t][..1] == [t] && [t][1..] == [];
    assert At(a, [t]).Ok? <==> Open(Checked, a, t).Ok?;
    assert At(b, [t]).Ok? <==> Open(Checked, b, t).Ok?;
  }

  ghost predicate AllAim(a: Json, b: Json, ops: seq<Op>) { forall i | 0 <= i < |ops| :: Aims(a, b, ops[i]) }

  lemma {:induction false} DiffAims(a: Json, b: Json)
    requires FitsSizeType(a) && FitsSizeType(b)
    ensures AllAim(a, b, DiffOps(a, b))
    decreases a, 2, 0
  {
    if !Equal(a, b) {
      if a.Array? && b.Array? {
        var n := Min(|a.items|, |b.items|);
        ItemEditsAim(a, b, 0); RemovalsAim(a, b, n, |a.items|); AppendsAim(a, b, b.items[n..]);
      } else if a.Object? && b.Object? {
        MemberEditsAim(a, b, SortedKeys(a.members.Keys));
        AdditionsAim(a, b, SortedKeys(b.members.Keys));
      } else {
        AimsAtRoot(a, b);
      }
    }
  }

  lemma UnderAims(a: Json, b: Json, t: string, ops: seq<Op>)
    requires !Equal(a, b) && Open(Checked, a, t).Ok? && Open(Checked, b, t).Ok?
    requires AllAim(Peek(Open(Checked, a, t).value), Peek(Open(Checked, b, t).value), ops)
    ensures AllAim(a, b, Under(t, ops))
  {
    forall i | 0 <= i < |ops| ensures Aims(a, b, Under(t, ops)[i]) { AimsBelow(a, b, t, ops[i]); }
  }

  lemma {:induction false} ItemEditsAim(a: Json, b: Json, i: nat)
    requires a.Array? && b.Array? && !Equal(a, b) && FitsSizeType(a) && FitsSizeType(b)
    ensures AllAim(a, b, ItemEdits(a, b, i))
    decreases a, 1, Min(|a.items|, |b.items|) - i
  {
    if i < Min(|a.items|, |b.items|) {
      DiffAims(a.items[i], b.items[i]);
      ChildAt(a.items, i);
      ChildAt(b.items, i);
      UnderAims(a, b, Digits(i), DiffOps(a.items[i], b.items[i]));
      ItemEditsAim(a, b, i + 1);
    }
  }

  lemma {:induction false} RemovalsAim(a: Json, b: Json, lo: nat, hi: nat)
    requires a.Array? && b.Array? && !Equal(a, b) && FitsSizeType(a) && FitsSizeType(b)
    requires hi <= |a.items| && (lo < hi ==> lo >= |b.items|)
    ensures AllAim(a, b, Removals(lo, hi))
    decreases hi
  {
    if hi > lo {
      var i := hi - 1;
      ChildAt(a.items, i);
      ArrayIndexIsDigits(Digits(i), i);
      assert Digits(i) != "-" by { assert IsDigit(Digits(i)[0]); }
      AimsAtChild(a, b, Digits(i), Remove([Digits(i)]));
      RemovalsAim(a, b, lo, i);
    }
  }

  lemma {:induction false} AppendsAim(a: Json, b: Json, items: seq<Json>)
    requires a.Array? && b.Array? && !Equal(a, b)
    ensures AllAim(a, b, Appends(items))
  {
    if items != [] {
      AimsAtChild(a, b, "-", Add(["-"], items[0]));
      AppendsAim(a, b, items[1..]);
    }
  }

  lemma {:induction false} MemberEditsAim(a: Json, b: Json, keys: seq<string>)
    requires a.Object? && b.Object? && !Equal(a, b) && FitsSizeType(a) && FitsSizeType(b)
    requires forall k | k in keys :: k in a.members
    ensures AllAim(a, b, MemberEdits(a, b, keys))
    decreases a, 1, |keys|
  {
    if keys != [] {
      var k := keys[0];
      if k in b.members {
        DiffAims(a.members[k], b.members[k]);
        UnderAims(a, b, k, DiffOps(a.members[k], b.members[k]));
      } else {
        AimsAtChild(a, b, k, Remove([k]));
      }
      MemberEditsAim(a, b, keys[1..]);
    }
  }

  lemma {:induction false} AdditionsAim(a: Json, b: Json, keys: seq<string>)
    requires a.Object? && b.Object? && !Equal(a, b) && forall k | k in keys :: k in b.members
    ensures AllAim(a, b, Additions(a.members, b.members, keys))
    decreases |keys|
  {
    if keys != [] {
      if keys[0] !in a.members { AimsAtChild(a, b, keys[0], Add([keys[0]], b.members[keys[0]])); }
      AdditionsAim(a, b, keys[1..]);
    }
  }

  lemma EncodeAllConcat(path: string, x: seq<Op>, y: seq<Op>)
    ensures EncodeAll(path, x + y) == EncodeAll(path, x) + EncodeAll(path, y)
  {
  }

  lemma PathPrefixed(path: string, t: string, ptr: Pointer)
    ensures path + Print([t] + ptr) == path + "/" + Escape(t) + Print(ptr)
  {
    PrintCons(t, ptr);
  }

  lemma EncodePrefixed(path: string, t: string, op: Op)
    ensures Encode(path, Prefixed(t, op)) == Encode(path + "/" + Escape(t), op)
  {
    hide Print, Escape;
    PathPrefixed(path, t, op.ptr);
    if op.Move? || op.Copy? { PathPrefixed(path, t, op.from); }
  }

  lemma EncodeUnder(path: string, t: string, ops: seq<Op>)
    ensures EncodeAll(path, Under(t, ops)) == EncodeAll(path + "/" + Escape(t), ops)
  {
    forall i | 0 <= i < |ops| ensures Encode(path, Under(t, ops)[i]) == Encode(path + "/" + Escape(t), ops[i]) {
      EncodePrefixed(path, t, ops[i]);
    }
  }
}
