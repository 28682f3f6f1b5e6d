/** Which flat documents `flatten` gives back after `unflatten`. */
module FlatDocuments {
  import opened Outcomes
  import opened Text
  import opened Escaping
  import opened Values
  import opened Pointers
  import opened Resolution
  import opened Patch
  import opened Flattening
  import opened FlattenLaws

  // ----- sets of pointers

  /** The first tokens. */
  function Heads(ptrs: set<Pointer>): set<string> { set p | p in ptrs && p != [] :: p[0] }

  function IndexTokens(n: nat): set<string> { set i | 0 <= i < n :: Digits(i) }

  /** The tokens are the indices of an array. */
  predicate Indices(tokens: set<string>) { |tokens| < SIZE_MAX && tokens == IndexTokens(|tokens|) }

  /** The first pointer in byte order starts with "0". */
  ghost predicate StartsAtZero(ptrs: set<Pointer>) {
    exists p | p in ptrs :: p != [] && p[0] == "0" && forall x | x in ptrs :: !Before(Print(x), Print(p))
  }

  /** The pointers are the leaves of a document that can be rebuilt: none is a prefix of
      another, and where the first one in byte order makes an array, the tokens there
      are the indices from 0 on, without a gap.  No pointer has more than `h` tokens. */
  ghost predicate Regular(ptrs: set<Pointer>, h: nat)
    decreases h
  {
    || ptrs == {[]}
    || (h > 0 && ptrs != {} && [] !in ptrs
        && (StartsAtZero(ptrs) ==> Indices(Heads(ptrs)))
        && forall t | t in Heads(ptrs) :: Regular(Sub(ptrs, t), h - 1))
  }

  lemma {:induction false} IndexTokensCount(n: nat)
    ensures |IndexTokens(n)| == n
  {
    hide Digits;
    if n > 0 {
      IndexTokensCount(n - 1);
      forall i | 0 <= i < n - 1 ensures Digits(i) != Digits(n - 1) {
        if Digits(i) == Digits(n - 1) { DigitsInjective(i, n - 1); }
      }
      assert IndexTokens(n) == IndexTokens(n - 1) + {Digits(n - 1)};
    }
  }

  lemma HeadsOf(ptrs: set<Pointer>, t: string)
    ensures t in Heads(ptrs) <==> Sub(ptrs, t) != {}
  {
    if t in Heads(ptrs) {
      var p :| p in ptrs && p != [] && p[0] == t;
      assert p[1..] in Sub(ptrs, t);
    }
    if Sub(ptrs, t) != {} {
      var q :| q in Sub(ptrs, t);
      SubContains(ptrs, t, q);
      assert ([t] + q)[0] == t;
    }
  }

  // ----- from the pointers to the document

  /** All pointers of the set, below `q`, are keys of the flat document. */
  predicate Covered(m: map<string, Json>, q: Pointer, ptrs: set<Pointer>) {
    forall p | p in ptrs :: Print(q + p) in m && IsPrimitive(m[Print(q + p)])
  }

  lemma CoveredBelow(m: map<string, Json>, q: Pointer, ptrs: set<Pointer>, t: string)
    requires Covered(m, q, ptrs)
    ensures Covered(m, q + [t], Sub(ptrs, t))
  {
    forall p | p in Sub(ptrs, t) ensures Print((q + [t]) + p) in m && IsPrimitive(m[Print((q + [t]) + p)]) {
      SubContains(ptrs, t, p);
      assert (q + [t]) + p == q + ([t] + p);
    }
  }

  /** The document with these leaves. */
  ghost function Assemble(m: map<string, Json>, q: Pointer, ptrs: set<Pointer>, h: nat): Json
    requires Regular(ptrs, h) && Covered(m, q, ptrs)
    decreases h, 1
  {
    if ptrs == {[]} then
      assert q + [] == q;
      m[Print(q)]
    else
      RegularBelow(ptrs, h, "");
      if StartsAtZero(ptrs) then
        Array(seq(|Heads(ptrs)|, i requires 0 <= i < |Heads(ptrs)| =>
          assert Digits(i) in IndexTokens(|Heads(ptrs)|);
          AssembleBelow(m, q, ptrs, h, Digits(i))))
      else
        Object(map t | t in Heads(ptrs) :: AssembleBelow(m, q, ptrs, h, t))
  }

  ghost function AssembleBelow(m: map<string, Json>, q: Pointer, ptrs: set<Pointer>, h: nat, t: string): Json
    requires Regular(ptrs, h) && Covered(m, q, ptrs) && ptrs != {[]} && t in Heads(ptrs)
    decreases h, 0
  {
    RegularBelow(ptrs, h, t);
    CoveredBelow(m, q, ptrs, t);
    Assemble(m, q + [t], Sub(ptrs, t), h - 1)
  }

  /** The value below a first token of an assembled document. */
  lemma AssembledBelow(m: map<string, Json>, q: Pointer, ptrs: set<Pointer>, h: nat, t: string)
    requires Regular(ptrs, h) && Covered(m, q, ptrs) && ptrs != {[]}
    ensures Open(Checked, Assemble(m, q, ptrs, h), t).Ok? <==> t in Heads(ptrs)
    ensures t in Heads(ptrs) ==>
              && Regular(Sub(ptrs, t), h - 1) && Covered(m, q + [t], Sub(ptrs, t))
              && Peek(Open(Checked, Assemble(m, q, ptrs, h), t).value) == Assemble(m, q + [t], Sub(ptrs, t), h - 1)
  {
    hide Regular, StartsAtZero, Sub;
    CoveredBelow(m, q, ptrs, t);
    RegularBelow(ptrs, h, t);
    var v := Assemble(m, q, ptrs, h);
    if v.Array? {
      var n := |Heads(ptrs)|;
      if Open(Checked, v, t).Ok? {
        ArrayIndexIsDigits(t, ArrayIndex(t).value);
        assert t in IndexTokens(n);
      }
      if t in Heads(ptrs) {
        var i :| 0 <= i < n && Digits(i) == t;
        ArrayIndexIsDigits(t, i);
        assert t != "-" by { assert IsDigit(Digits(i)[0]); }
      }
    }
  }

  lemma RegularBelow(ptrs: set<Pointer>, h: nat, t: string)
    requires Regular(ptrs, h) && ptrs != {[]}
    ensures h > 0 && [] !in ptrs && Heads(ptrs) != {}
    ensures StartsAtZero(ptrs) ==> Indices(Heads(ptrs))
    ensures t in Heads(ptrs) ==> Regular(Sub(ptrs, t), h - 1)
  {
    var p :| p in ptrs;
    assert p[0] in Heads(ptrs);
  }

  lemma AssembledKind(m: map<string, Json>, q: Pointer, ptrs: set<Pointer>, h: nat)
    requires Regular(ptrs, h) && Covered(m, q, ptrs)
    ensures var v := Assemble(m, q, ptrs, h);
            if ptrs == {[]} then Print(q) in m && IsPrimitive(v) && v == m[Print(q)]
            else if StartsAtZero(ptrs) then v.Array? && |v.items| == |Heads(ptrs)|
            else v.Object? && v.members.Keys == Heads(ptrs)
  {
    if ptrs == {[]} {
      assert [] in ptrs && q + [] == q;
    }
  }

  /** The leaves of the assembled document are the pointers, with their values. */
  lemma {:induction false} AssembledLeaves(m: map<string, Json>, q: Pointer, ptrs: set<Pointer>, h: nat, p: Pointer)
    requires Regular(ptrs, h) && Covered(m, q, ptrs)
    ensures IsLeaf(Assemble(m, q, ptrs, h), p) <==> p in ptrs
    ensures p in ptrs ==> Leaf(Assemble(m, q, ptrs, h), p) == m[Print(q + p)]
    decreases |p|
  {
    hide Regular, StartsAtZero, Assemble;
    AssembledKind(m, q, ptrs, h);
    var v := Assemble(m, q, ptrs, h);
    if ptrs == {[]} {
      assert q + [] == q;
    } else if p == [] {
      RegularBelow(ptrs, h, "");
      var t :| t in Heads(ptrs);
      AssembledBelow(m, q, ptrs, h, t);
    } else {
      var t, r := p[0], p[1..];
      assert p == [t] + r && (q + [t]) + r == q + p;
      RegularBelow(ptrs, h, t);
      AssembledBelow(m, q, ptrs, h, t);
      SubContains(ptrs, t, r);
      HeadsOf(ptrs, t);
      if t in Heads(ptrs) { AssembledLeaves(m, q + [t], Sub(ptrs, t), h - 1, r); }
    }
  }

  /** A set of pointers that is not empty has a first one in byte order. */
  lemma FirstPointer(ptrs: set<Pointer>) returns (p: Pointer)
    requires ptrs != {}
    ensures p in ptrs && forall x | x in ptrs && x != p :: Before(Print(p), Print(x))
  {
    var prints := set x | x in ptrs :: Print(x);
    var some :| some in ptrs;
    assert Print(some) in prints;
    LeastExists(prints);
    var k :| IsLeast(k, prints);
    p :| p in ptrs && Print(p) == k;
    forall x | x in ptrs && x != p ensures Before(Print(p), Print(x)) {
      if Print(x) == Print(p) { PrintInjective(x, p); }
    }
  }

  lemma MemberOrder(m: map<string, Json>, k: string, s: Pointer, s0: Pointer)
    requires "0" in m && k in m && k != "0" && IsLeaf(m["0"], s0)
    ensures Before(Print([k] + s), Print(["0"] + s0)) <==> PrecedesZero(m, k)
  {
    hide Print, Before, PrecedesZero;
    OrderBelow([], k, s, "0", s0);
    assert [] + ([k] + s) == [k] + s && [] + (["0"] + s0) == ["0"] + s0;
    MembersOrder(m, k, s, s0);
  }

  /** Where the first leaf makes no array, a member precedes "0". */
  lemma ObjectIsSafe(v: Json, ptrs: set<Pointer>)
    requires v.Object? && "0" in v.members && FitsSizeType(v) && forall p :: p in ptrs <==> IsLeaf(v, p)
    requires [] !in ptrs && !StartsAtZero(ptrs)
    ensures exists k | k in v.members && k != "0" :: PrecedesZero(v.members, k)
  {
    var s0 := HasLeaf(v.members["0"]);
    LeafBelow(v, "0", s0);
    var p := FirstPointer(ptrs);
    var k, s := p[0], p[1..];
    assert p == [k] + s && [k] + s == p;
    BeforeTotal(Print(p), Print(p));
    forall x | x in ptrs ensures !Before(Print(x), Print(p)) {
      if x != p { BeforeTotal(Print(x), Print(p)); }
    }
    assert k != "0";
    assert ["0"] + s0 in ptrs && (["0"] + s0)[0] == "0";
    assert IsLeaf(v, p);
    MemberOrder(v.members, k, s, s0);
  }

  /** The assembled document can be flattened and rebuilt. */
  lemma {:induction false} AssembledIsGood(m: map<string, Json>, q: Pointer, ptrs: set<Pointer>, h: nat)
    requires Regular(ptrs, h) && Covered(m, q, ptrs)
    ensures var v := Assemble(m, q, ptrs, h); FitsSizeType(v) && DiscardFree(v) && NoEmptyContainer(v) && Safe(v)
    decreases h
  {
    hide Regular, StartsAtZero, Assemble;
    AssembledKind(m, q, ptrs, h);
    var v := Assemble(m, q, ptrs, h);
    if ptrs != {[]} {
      RegularBelow(ptrs, h, "");
      forall t | t in Heads(ptrs)
        ensures Open(Checked, v, t).Ok?
        ensures var c := Peek(Open(Checked, v, t).value);
                FitsSizeType(c) && DiscardFree(c) && NoEmptyContainer(c) && Safe(c)
      {
        AssembledBelow(m, q, ptrs, h, t);
        AssembledIsGood(m, q + [t], Sub(ptrs, t), h - 1);
      }
      if v.Array? {
        forall i | 0 <= i < |v.items|
          ensures FitsSizeType(v.items[i]) && DiscardFree(v.items[i])
          ensures NoEmptyContainer(v.items[i]) && Safe(v.items[i])
        {
          assert Digits(i) in IndexTokens(|v.items|);
          ArrayIndexIsDigits(Digits(i), i);
        }
      } else {
        if "0" in v.members {
          forall p ensures p in ptrs <==> IsLeaf(v, p) { AssembledLeaves(m, q, ptrs, h, p); }
          ObjectIsSafe(v, ptrs);
        }
      }
    }
  }

  // ----- from the document to the pointers

  lemma PrimitiveLeaves(d: Json, ptrs: set<Pointer>)
    requires !d.Array? && !d.Object? && forall p :: p in ptrs <==> IsLeaf(d, p)
    ensures ptrs == {[]}
  {
    assert IsLeaf(d, []);
    forall p | p in ptrs ensures p == [] {
      if p != [] { assert false; }
    }
  }

  lemma LeavesOfChild(d: Json, ptrs: set<Pointer>, t: string)
    requires Open(Checked, d, t).Ok? && forall p :: p in ptrs <==> IsLeaf(d, p)
    ensures forall q :: q in Sub(ptrs, t) <==> IsLeaf(Peek(Open(Checked, d, t).value), q)
  {
    forall q ensures q in Sub(ptrs, t) <==> IsLeaf(Peek(Open(Checked, d, t).value), q) {
      SubContains(ptrs, t, q);
      LeafBelow(d, t, q);
    }
  }

  /** The first tokens of the leaves are the places of the container. */
  lemma HeadsAreOpen(d: Json, ptrs: set<Pointer>, t: string)
    requires FitsSizeType(d) && NoEmptyContainer(d) && (d.Array? || d.Object?)
    requires forall p :: p in ptrs <==> IsLeaf(d, p)
    ensures t in Heads(ptrs) <==> Open(Checked, d, t).Ok?
  {
    HeadsOf(ptrs, t);
    if Open(Checked, d, t).Ok? {
      LeavesOfChild(d, ptrs, t);
      var s := HasLeaf(Peek(Open(Checked, d, t).value));
      assert s in Sub(ptrs, t);
    }
    if t in Heads(ptrs) {
      var p :| p in ptrs && p != [] && p[0] == t;
      assert IsLeaf(d, p);
    }
  }

  lemma ArrayHeads(d: Json, ptrs: set<Pointer>)
    requires d.Array? && FitsSizeType(d) && NoEmptyContainer(d) && forall p :: p in ptrs <==> IsLeaf(d, p)
    ensures Indices(Heads(ptrs))
  {
    var n := |d.items|;
    forall t ensures t in Heads(ptrs) <==> t in IndexTokens(n) {
      HeadsAreOpen(d, ptrs, t);
      if Open(Checked, d, t).Ok? {
        ArrayIndexIsDigits(t, ArrayIndex(t).value);
      }
      if t in IndexTokens(n) {
        var i :| 0 <= i < n && Digits(i) == t;
        ItemOpens(d, i);
      }
    }
    IndexTokensCount(n);
    assert Heads(ptrs) == IndexTokens(n);
  }

  lemma ObjectStart(d: Json, ptrs: set<Pointer>)
    requires d.Object? && FitsSizeType(d) && Safe(d) && forall p :: p in ptrs <==> IsLeaf(d, p)
    ensures !StartsAtZero(ptrs)
  {
    hide Print, Before, PrecedesZero, Digits;
    if StartsAtZero(ptrs) {
      var p :| p in ptrs && p != [] && p[0] == "0" && forall x | x in ptrs :: !Before(Print(x), Print(p));
      var s0 := p[1..];
      assert p == ["0"] + s0 && IsLeaf(d, p);
      LeafBelow(d, "0", s0);
      var k :| k in d.members && k != "0" && PrecedesZero(d.members, k);
      var s := HasLeaf(d.members[k]);
      LeafBelow(d, k, s);
      assert [k] + s in ptrs;
      MemberOrder(d.members, k, s, s0);
    }
  }

  /** The leaves of a safe document without empty containers are regular. */
  lemma {:induction false} LeavesAreRegular(d: Json, ptrs: set<Pointer>, h: nat)
    requires FitsSizeType(d) && NoEmptyContainer(d) && Safe(d)
    requires (forall p :: p in ptrs <==> IsLeaf(d, p)) && forall p | p in ptrs :: |p| <= h
    ensures Regular(ptrs, h)
    decreases h
  {
    hide StartsAtZero, Indices, Heads, Sub;
    if !d.Array? && !d.Object? {
      PrimitiveLeaves(d, ptrs);
    } else {
      var some := HasLeaf(d);
      assert some in ptrs && some != [] && [] !in ptrs;
      forall t | t in Heads(ptrs) ensures Regular(Sub(ptrs, t), h - 1) {
        HeadsAreOpen(d, ptrs, t);
        LeavesOfChild(d, ptrs, t);
        forall q | q in Sub(ptrs, t) ensures |q| <= h - 1 { SubContains(ptrs, t, q); }
        LeavesAreRegular(Peek(Open(Checked, d, t).value), Sub(ptrs, t), h - 1);
      }
      if d.Array? { ArrayHeads(d, ptrs); } else { ObjectStart(d, ptrs); }
    }
  }

  // ----- unflatten makes no empty container

  lemma {:induction false} CreatedNotEmpty(d: Json, ptr: Pointer, x: Json)
    requires NoEmptyContainer(d) && IsPrimitive(x) && EditAt(Creating, d, ptr, Assign(x)).Ok?
    ensures NoEmptyContainer(EditAt(Creating, d, ptr, Assign(x)).value)
    decreases |ptr|
  {
    if ptr == [] {
      assert EditAt(Creating, d, ptr, Assign(x)) == Ok(x);
    } else {
      var t, q := ptr[0], ptr[1..];
      assert ptr == [t] + q;
      EditBelow(Creating, d, t, q, Assign(x));
      var f := Open(Creating, d, t).value;
      assert NoEmptyContainer(Peek(f));
      CreatedNotEmpty(Peek(f), q, x);
    }
  }

  lemma {:induction false} UnflattenedNotEmpty(d: Json, m: map<string, Json>, keys: seq<string>)
    requires NoEmptyContainer(d) && (forall k | k in keys :: k in m) && UnflattenFrom(d, m, keys).Ok?
    ensures NoEmptyContainer(UnflattenFrom(d, m, keys).value)
    ensures forall k | k in keys :: IsPrimitive(m[k])
    decreases |keys|
  {
    if keys != [] {
      CreatedNotEmpty(d, Parse(keys[0]).value, m[keys[0]]);
      UnflattenedNotEmpty(EditAt(Creating, d, Parse(keys[0]).value, Assign(m[keys[0]])).value, m, keys[1..]);
      assert keys == [keys[0]] + keys[1..];
    }
  }

  // ----- the round trip from the flat side

  function PointersOf(m: map<string, Json>): set<Pointer> { set k | k in m :: PointerOf(k) }

  /** The keys are pointers and the values primitive. */
  predicate WellFormed(m: map<string, Json>) { forall k | k in m :: Parse(k).Ok? && IsPrimitive(m[k]) }

  /** `unflatten` succeeds on the flat document, and `flatten` gives it back. */
  predicate Restored(m: map<string, Json>) {
    var r := Unflatten(Object(m));
    r.Ok? && FitsSizeType(r.value) && Flat("", r.value) == m
  }

  lemma KeysArePointers(m: map<string, Json>, p: Pointer)
    requires WellFormed(m)
    ensures p in PointersOf(m) <==> Print(p) in m
  {
    ParsePrint(p);
    if p in PointersOf(m) {
      var k :| k in m && PointerOf(k) == p;
      PrintParse(k);
    }
  }

  lemma EntryOfFlat(m: map<string, Json>, v: Json, s: string)
    requires FitsSizeType(v) && s in Flat("", v)
    requires forall p | IsLeaf(v, p) :: Print(p) in m && Leaf(v, p) == m[Print(p)]
    ensures s in m && m[s] == Flat("", v)[s]
  {
    hide Flat, Print, IsLeaf, Leaf, FitsSizeType;
    var p := FlatIsSound("", v, s);
    assert "" + Print(p) == Print(p);
  }

  lemma EntryInFlat(m: map<string, Json>, v: Json, s: string)
    requires FitsSizeType(v) && s in m && Parse(s).Ok? && IsLeaf(v, PointerOf(s))
    ensures s in Flat("", v)
  {
    hide Flat, Print, IsLeaf, FitsSizeType;
    PrintParse(s);
    FlatIsComplete("", v, PointerOf(s));
    assert "" + Print(PointerOf(s)) == s;
  }

  lemma FlatOfAssembled(m: map<string, Json>, v: Json)
    requires WellFormed(m) && FitsSizeType(v)
    requires forall p :: IsLeaf(v, p) <==> p in PointersOf(m)
    requires forall p | p in PointersOf(m) :: Print(p) in m && Leaf(v, p) == m[Print(p)]
    ensures Flat("", v) == m
  {
    hide Flat, IsLeaf, Leaf, Print, Parse, PointerOf, FitsSizeType;
    var flat := Flat("", v);
    forall s | s in flat ensures s in m && m[s] == flat[s] { EntryOfFlat(m, v, s); }
    forall s | s in m ensures s in flat {
      assert PointerOf(s) in PointersOf(m);
      EntryInFlat(m, v, s);
    }
    assert flat.Keys == m.Keys;
  }

  lemma RegularIsRestored(m: map<string, Json>, h: nat)
    requires WellFormed(m) && Regular(PointersOf(m), h)
    ensures Restored(m)
  {
    hide Regular, Flat, Unflatten;
    var ptrs := PointersOf(m);
    forall p | p in ptrs ensures Print([] + p) in m && IsPrimitive(m[Print([] + p)]) {
      KeysArePointers(m, p);
      assert [] + p == p;
    }
    var v := Assemble(m, [], ptrs, h);
    AssembledIsGood(m, [], ptrs, h);
    forall p
      ensures IsLeaf(v, p) <==> p in ptrs
      ensures p in ptrs ==> Print(p) in m && Leaf(v, p) == m[Print(p)]
    {
      AssembledLeaves(m, [], ptrs, h, p);
      assert [] + p == p;
    }
    FlatOfAssembled(m, v);
    FlattenRoundTrip(v, m);
    PruneKeeps(v);
  }

  lemma RestoredIsRegular(m: map<string, Json>, h: nat)
    requires Restored(m) && forall k | k in m :: |PointerOf(k)| <= h
    ensures WellFormed(m) && Regular(PointersOf(m), h)
  {
    hide Regular, Flat, UnflattenFrom;
    var d := Unflatten(Object(m)).value;
    var keys := SortedKeys(m.Keys);
    UnflattenedNotEmpty(Null, m, keys);
    PruneKeeps(d);
    FlattenRoundTrip(d, m);
    forall k | k in m ensures Parse(k).Ok? && IsPrimitive(m[k]) {
      assert k in keys;
      var p := FlatIsSound("", d, k);
      assert "" + Print(p) == Print(p);
      ParsePrint(p);
    }
    forall p ensures p in PointersOf(m) <==> IsLeaf(d, p) {
      KeysArePointers(m, p);
      assert "" + Print(p) == Print(p);
      if IsLeaf(d, p) { FlatIsComplete("", d, p); }
      if Print(p) in m {
        var q := FlatIsSound("", d, Print(p));
        assert "" + Print(q) == Print(q);
        PrintInjective(p, q);
      }
    }
    LeavesAreRegular(d, PointersOf(m), h);
  }

  /** `flatten` after `unflatten` gives back a flat document exactly when its keys are
      pointers, its values primitive, and the pointers the leaves of a document: none a
      prefix of another, arrays without gaps.  `h` bounds the lengths of the pointers. */
  lemma UnflattenFlatten(m: map<string, Json>, h: nat)
    requires forall k | k in m :: |PointerOf(k)| <= h
    ensures Restored(m) <==> WellFormed(m) && Regular(PointersOf(m), h)
  {
    if Restored(m) { RestoredIsRegular(m, h); }
    if WellFormed(m) && Regular(PointersOf(m), h) { RegularIsRestored(m, h); }
  }

  lemma PrefixIsIrregular(ptrs: set<Pointer>, h: nat)
    requires [] in ptrs && ptrs != {[]}
    ensures !Regular(ptrs, h)
  {
  }

  /** A key that is a prefix of another is lost, although `unflatten` succeeds. */
  lemma PrefixIsLost()
    ensures var m := map["" := Null, "/a" := Boolean(true)]; WellFormed(m) && !Restored(m)
  {
    var m := map["" := Null, "/a" := Boolean(true)];
    assert Escape("a") == "a" by { assert "a"[1..] == ""; }
    assert ["a"][1..] == [] && Print(["a"]) == "/a";
    ParsePrint(["a"]);
    ParsePrint([]);
    assert PointerOf("/a") == ["a"] && PointerOf("") == [];
    assert "" in m && "/a" in m;
    hide Regular, Restored, Print, Parse, PointerOf;
    assert [] in PointersOf(m) && ["a"] in PointersOf(m);
    PrefixIsIrregular(PointersOf(m), 1);
    UnflattenFlatten(m, 1);
  }
}
