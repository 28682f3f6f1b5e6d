/** The resolvers of `json_pointer`.

    The C++ resolvers move a pointer down a mutable tree and return a reference.
    Here a reference into a document is a `Cursor`: the value it refers to and
    the trail of containers above it; writing through it is `Rebuild`. */
module Resolution {
  import opened Outcomes
  import opened Text
  import opened Values
  import opened Pointers

  datatype Slot = Key(key: string) | Index(index: nat)

  /** A container and one of its slots. */
  datatype RawFocus = RawFocus(container: Json, slot: Slot)
  {
    predicate Valid() {
      || (container.Object? && slot.Key? && slot.key in container.members)
      || (container.Array? && slot.Index? && slot.index < |container.items|)
    }
  }

  type Focus = f: RawFocus | f.Valid() witness RawFocus(Array([Null]), Index(0))

  function Peek(f: Focus): Json {
    if f.slot.Key? then f.container.members[f.slot.key] else f.container.items[f.slot.index]
  }

  function Plug(f: Focus, v: Json): Json {
    if f.slot.Key? then Object(f.container.members[f.slot.key := v])
    else Array(f.container.items[f.slot.index := v])
  }

  /** The token that `get_checked` needs to reach a slot. */
  function SlotToken(s: Slot): string {
    match s
    case Key(k) => k
    case Index(i) => Digits(i)
  }

  datatype Mode = Checked | Unchecked | Creating

  /** `resize` to at least `n + 1` elements, filling with null. */
  function Grow(items: seq<Json>, n: nat): (r: seq<Json>)
    ensures |r| == (if n < |items| then |items| else n + 1)
    ensures items <= r && forall i | |items| <= i < |r| :: r[i] == Null
  {
    if n < |items| then items else items + seq(n + 1 - |items|, _ => Null)
  }

  /** `operator[](key)` on an object: a missing member is created as null. */
  function Ensure(m: map<string, Json>, k: string): map<string, Json> {
    if k in m then m else m[k := Null]
  }

  function OpenArray(items: seq<Json>, t: string): Result<Focus> {
    var i :- ArrayIndex(t);
    Ok(RawFocus(Array(Grow(items, i)), Index(i)))
  }

  /** One round of the resolver loops: the container as the round leaves it, and
      the slot the pointer moves to. */
  function Open(mode: Mode, j: Json, t: string): Result<Focus> {
    match mode
    case Checked => (
      match j
      case Object(m) => if t in m then Ok(RawFocus(j, Key(t))) else Err(OutOfRange(403))
      case Array(a) =>
        if t == "-" then Err(OutOfRange(402))
        else
          var i :- ArrayIndex(t);
          if i < |a| then Ok(RawFocus(j, Index(i))) else Err(OutOfRange(401))
      case _ => Err(OutOfRange(404))
    )
    case Unchecked => (
      match if j.Null? then (if AllDigits(t) || t == "-" then Array([]) else Object(map[])) else j
      case Object(m) => Ok(RawFocus(Object(Ensure(m, t)), Key(t)))
      case Array(a) =>
        if t == "-" then Ok(RawFocus(Array(Grow(a, |a|)), Index(|a|))) else OpenArray(a, t)
      case _ => Err(OutOfRange(404))
    )
    case Creating => (
      match j
      case Null =>
        if t == "0" then Ok(RawFocus(Array(Grow([], 0)), Index(0)))
        else Ok(RawFocus(Object(Ensure(map[], t)), Key(t)))
      case Object(m) => Ok(RawFocus(Object(Ensure(m, t)), Key(t)))
      case Array(a) => OpenArray(a, t)
      case _ => Err(TypeError(313))
    )
  }

  /** A reference into a document. */
  datatype Cursor = Cursor(trail: seq<Focus>, node: Json)

  /** The document in which the referenced value has become `v`. */
  function Rebuild(trail: seq<Focus>, v: Json): Json {
    if trail == [] then v else Plug(trail[0], Rebuild(trail[1..], v))
  }

  function Trace(mode: Mode, j: Json, ptr: Pointer): Result<Cursor>
    decreases |ptr|
  {
    if ptr == [] then Ok(Cursor([], j))
    else
      var f :- Open(mode, j, ptr[0]);
      var c :- Trace(mode, Peek(f), ptr[1..]);
      Ok(Cursor([f] + c.trail, c.node))
  }

  /** `at`: the value `get_checked` reaches. */
  function At(j: Json, ptr: Pointer): Result<Json>
    decreases |ptr|
  {
    if ptr == [] then Ok(j)
    else
      var f :- Open(Checked, j, ptr[0]);
      At(Peek(f), ptr[1..])
  }

  // ----- the loops

  /** Behind the steps `trail`, what remains from `node` on decides the result. */
  ghost predicate Continues(mode: Mode, trail: seq<Focus>, node: Json, rest: Pointer, whole: Result<Cursor>) {
    var r := Trace(mode, node, rest);
    whole == if r.Ok? then Ok(Cursor(trail + r.value.trail, r.value.node)) else r
  }

  lemma ContinueOver(mode: Mode, trail: seq<Focus>, node: Json, rest: Pointer, whole: Result<Cursor>)
    requires Continues(mode, trail, node, rest, whole) && rest != []
    ensures var f := Open(mode, node, rest[0]);
            if f.Ok? then Continues(mode, trail + [f.value], Peek(f.value), rest[1..], whole)
            else whole == Err(f.error)
  {
    var f := Open(mode, node, rest[0]);
    if f.Ok? {
      var r := Trace(mode, Peek(f.value), rest[1..]);
      if r.Ok? { assert trail + ([f.value] + r.value.trail) == (trail + [f.value]) + r.value.trail; }
    }
  }

  lemma ContinueStart(mode: Mode, j: Json, ptr: Pointer)
    ensures Continues(mode, [], j, ptr, Trace(mode, j, ptr))
  {
    var r := Trace(mode, j, ptr);
    if r.Ok? { assert [] + r.value.trail == r.value.trail; }
  }

  method GetChecked(j: Json, ptr: Pointer) returns (r: Result<Cursor>)
    ensures r == Trace(Checked, j, ptr)
  {
    var trail: seq<Focus>, node := [], j;
    ContinueStart(Checked, j, ptr);
    for n := 0 to |ptr|
      invariant Continues(Checked, trail, node, ptr[n..], Trace(Checked, j, ptr))
    {
      ContinueOver(Checked, trail, node, ptr[n..], Trace(Checked, j, ptr));
      assert ptr[n..][1..] == ptr[n + 1..];
      var token := ptr[n];
      match node {
        case Object(m) =>
          if token !in m { return Err(OutOfRange(403)); }
          trail, node := trail + [RawFocus(node, Key(token))], m[token];
        case Array(a) =>
          if token == "-" { return Err(OutOfRange(402)); }
          var i := ArrayIndex(token);
          if i.Err? { return Err(i.error); }
          if i.value >= |a| { return Err(OutOfRange(401)); }
          trail, node := trail + [RawFocus(node, Index(i.value))], a[i.value];
        case _ => return Err(OutOfRange(404));
      }
    }
    assert trail + [] == trail;
    r := Ok(Cursor(trail, node));
  }

  /** The document as `get_unchecked` leaves it, whether it returns or throws: a throw
      in an array that a null was just converted to leaves the array. */
  function LeftBy(j: Json, ptr: Pointer): Json
    decreases |ptr|
  {
    if ptr == [] then j
    else
      var f := Open(Unchecked, j, ptr[0]);
      if f.Ok? then Plug(f.value, LeftBy(Peek(f.value), ptr[1..]))
      else if j.Null? then Array([])
      else j
  }

  /** Behind the steps `trail`, what `get_unchecked` does from `node` on decides what
      it leaves behind. */
  ghost predicate Leaving(trail: seq<Focus>, node: Json, rest: Pointer, whole: Json) {
    whole == Rebuild(trail, LeftBy(node, rest))
  }

  lemma LeavingOver(trail: seq<Focus>, node: Json, rest: Pointer, whole: Json)
    requires Leaving(trail, node, rest, whole) && rest != []
    ensures var f := Open(Unchecked, node, rest[0]);
            if f.Ok? then Leaving(trail + [f.value], Peek(f.value), rest[1..], whole)
            else whole == Rebuild(trail, if node.Null? then Array([]) else node)
  {
    var f := Open(Unchecked, node, rest[0]);
    if f.Ok? { RebuildOneMore(trail, f.value, LeftBy(Peek(f.value), rest[1..])); }
  }

  /** `get_unchecked`, and the document it leaves behind. */
  method GetUnchecked(j: Json, ptr: Pointer) returns (r: Result<Cursor>, left: Json)
    ensures r == Trace(Unchecked, j, ptr)
    ensures r.Ok? ==> left == Rebuild(r.value.trail, r.value.node)
    ensures left == LeftBy(j, ptr)
  {
    hide Rebuild, AllDigits, Leaving;
    var trail: seq<Focus>, node := [], j;
    ContinueStart(Unchecked, j, ptr);
    LeavingEnds([], j, ptr, LeftBy(j, ptr));
    for n := 0 to |ptr|
      invariant Continues(Unchecked, trail, node, ptr[n..], Trace(Unchecked, j, ptr))
      invariant Leaving(trail, node, ptr[n..], LeftBy(j, ptr))
    {
      ContinueOver(Unchecked, trail, node, ptr[n..], Trace(Unchecked, j, ptr));
      LeavingOver(trail, node, ptr[n..], LeftBy(j, ptr));
      assert ptr[n..][1..] == ptr[n + 1..];
      var token := ptr[n];
      if node.Null? {
        var nums := AllDigits(token);
        node := if nums || token == "-" then Array([]) else Object(map[]);
      }
      if node.Object? {
        node := Object(Ensure(node.members, token));
        trail, node := trail + [RawFocus(node, Key(token))], node.members[token];
      } else if node.Array? {
        var i := |node.items|;
        if token != "-" {
          var index := ArrayIndex(token);
          if index.Err? { return Err(index.error), Rebuild(trail, node); }
          i := index.value;
        }
        node := Array(Grow(node.items, i));
        trail, node := trail + [RawFocus(node, Index(i))], node.items[i];
      } else {
        return Err(OutOfRange(404)), Rebuild(trail, node);
      }
    }
    assert trail + [] == trail;
    LeavingEnds(trail, node, [], LeftBy(j, ptr));
    r, left := Ok(Cursor(trail, node)), Rebuild(trail, node);
  }

  lemma LeavingEnds(trail: seq<Focus>, node: Json, rest: Pointer, whole: Json)
    ensures Leaving([], node, rest, LeftBy(node, rest))
    ensures Leaving(trail, node, [], whole) ==> whole == Rebuild(trail, node)
  {
  }

  method GetAndCreate(j: Json, ptr: Pointer) returns (r: Result<Cursor>)
    ensures r == Trace(Creating, j, ptr)
  {
    var trail: seq<Focus>, node := [], j;
    ContinueStart(Creating, j, ptr);
    for n := 0 to |ptr|
      invariant Continues(Creating, trail, node, ptr[n..], Trace(Creating, j, ptr))
    {
      ContinueOver(Creating, trail, node, ptr[n..], Trace(Creating, j, ptr));
      assert ptr[n..][1..] == ptr[n + 1..];
      var token := ptr[n];
      match node {
        case Null =>
          node := if token == "0" then Array(Grow([], 0)) else Object(Ensure(map[], token));
          var slot := if token == "0" then Index(0) else Key(token);
          trail, node := trail + [RawFocus(node, slot)], Null;
        case Object(m) =>
          node := Object(Ensure(m, token));
          trail, node := trail + [RawFocus(node, Key(token))], node.members[token];
        case Array(a) =>
          var i := ArrayIndex(token);
          if i.Err? { return Err(i.error); }
          node := Array(Grow(a, i.value));
          trail, node := trail + [RawFocus(node, Index(i.value))], node.items[i.value];
        case _ => return Err(TypeError(313));
      }
    }
    assert trail + [] == trail;
    r := Ok(Cursor(trail, node));
  }

  // ----- contains

  /** One round of `contains`: move on to a child, stop with false, or throw. */
  datatype Round = Descend(child: Json) | Absent | Throw(error: Error)

  function ContainsRound(j: Json, t: string): Round {
    match j
    case Object(m) => if t in m then Descend(m[t]) else Absent
    case Array(a) =>
      if t == "-" then Absent
      else if |t| == 1 && !IsDigit(t[0]) then Absent
      else if |t| > 1 && !('1' <= t[0] <= '9') then Absent
      else if |t| > 1 && !AllDigits(t[1..]) then Absent
      else
        var i := ArrayIndex(t);
        if i.Err? then Throw(i.error)
        else if i.value < |a| then Descend(a[i.value])
        else Absent
    case _ => Absent
  }

  function Contains(j: Json, ptr: Pointer): Result<bool>
    decreases |ptr|
  {
    if ptr == [] then Ok(true)
    else
      match ContainsRound(j, ptr[0])
      case Descend(child) => Contains(child, ptr[1..])
      case Absent => Ok(false)
      case Throw(e) => Err(e)
  }

  method ContainsPointer(j: Json, ptr: Pointer) returns (r: Result<bool>)
    ensures r == Contains(j, ptr)
  {
    var node := j;
    for n := 0 to |ptr|
      invariant Contains(j, ptr) == Contains(node, ptr[n..])
    {
      assert ptr[n..][1..] == ptr[n + 1..];
      var token := ptr[n];
      match node {
        case Object(m) =>
          if token !in m { return Ok(false); }
          node := m[token];
        case Array(a) =>
          if token == "-" { return Ok(false); }
          if |token| == 1 && !('0' <= token[0] <= '9') { return Ok(false); }
          if |token| > 1 {
            if !('1' <= token[0] <= '9') { return Ok(false); }
            for i := 1 to |token|
              invariant forall k | 1 <= k < i :: IsDigit(token[k])
            {
              if !('0' <= token[i] <= '9') {
                assert token[1..][i - 1] == token[i];
                return Ok(false);
              }
            }
          }
          var i := ArrayIndex(token);
          if i.Err? { return Err(i.error); }
          if i.value >= |a| { return Ok(false); }
          node := a[i.value];
        case _ => return Ok(false);
      }
    }
    r := Ok(true);
  }

  /** An array token on which `contains` throws: empty, or too large a number. */
  predicate Unindexable(t: string) {
    t == "" || (Canonical(t) && Numeral(t) >= SIZE_MAX)
  }

  lemma ContainsRoundAgrees(j: Json, t: string)
    ensures ContainsRound(j, t).Descend? ==>
              Open(Checked, j, t).Ok? && Peek(Open(Checked, j, t).value) == ContainsRound(j, t).child
    ensures !ContainsRound(j, t).Descend? ==> Open(Checked, j, t).Err?
    ensures ContainsRound(j, t).Throw? <==> j.Array? && Unindexable(t)
  {
    if j.Array? && |t| > 1 {
      if AllDigits(t[1..]) && IsDigit(t[0]) {
        assert t == [t[0]] + t[1..];
        assert AllDigits(t);
      }
      if AllDigits(t) { forall i | 0 <= i < |t[1..]| ensures IsDigit(t[1..][i]) { assert t[1..][i] == t[i + 1]; } }
    }
  }

  /** `contains` answers whether `at` succeeds.  It throws exactly when it meets an
      array token that is empty or too large, and there `at` throws as well. */
  lemma {:induction false} ContainsAgrees(j: Json, ptr: Pointer)
    ensures Contains(j, ptr).Ok? ==> (Contains(j, ptr).value <==> At(j, ptr).Ok?)
    ensures Contains(j, ptr).Err? ==> At(j, ptr).Err?
    ensures Contains(j, ptr).Err? <==>
            exists n | 0 <= n < |ptr| :: At(j, ptr[..n]).Ok? && At(j, ptr[..n]).value.Array? && Unindexable(ptr[n])
    decreases |ptr|
  {
    if ptr != [] {
      var t, rest := ptr[0], ptr[1..];
      ContainsRoundAgrees(j, t);
      assert At(j, ptr[..0]) == Ok(j);
      if ContainsRound(j, t).Descend? {
        var child := ContainsRound(j, t).child;
        ContainsAgrees(child, rest);
        forall n | 0 <= n < |rest| ensures At(child, rest[..n]) == At(j, ptr[..n + 1]) && rest[n] == ptr[n + 1] {
          assert ptr[..n + 1][1..] == rest[..n];
        }
        if Contains(j, ptr).Err? {
          var n :| 0 <= n < |rest| && At(child, rest[..n]).Ok? && At(child, rest[..n]).value.Array?
                   && Unindexable(rest[n]);
          assert At(j, ptr[..n + 1]).value.Array? && Unindexable(ptr[n + 1]);
        }
        if n :| 0 <= n < |ptr| && At(j, ptr[..n]).Ok? && At(j, ptr[..n]).value.Array? && Unindexable(ptr[n]) {
          if n > 0 { assert At(child, rest[..n - 1]).Ok? && Unindexable(rest[n - 1]); }
        }
      } else {
        forall n | 0 < n < |ptr| ensures At(j, ptr[..n]).Err? {
          assert ptr[..n][0] == t;
        }
      }
    }
  }

  // ----- creating lookup refines checked lookup

  lemma PlugPeek(f: Focus)
    ensures Plug(f, Peek(f)) == f.container
  {
    if f.slot.Key? {
      assert f.container.members[f.slot.key := Peek(f)] == f.container.members;
    } else {
      assert f.container.items[f.slot.index := Peek(f)] == f.container.items;
    }
  }

  lemma OpenRefines(j: Json, t: string)
    requires Open(Checked, j, t).Ok?
    ensures Open(Unchecked, j, t) == Open(Checked, j, t)
    ensures Open(Checked, j, t).value.container == j
    ensures SlotToken(Open(Checked, j, t).value.slot) == t
  {
    if j.Array? { ArrayIndexIsDigits(t, ArrayIndex(t).value); }
  }

  lemma {:induction false} AtIsTrace(j: Json, ptr: Pointer)
    ensures At(j, ptr).Ok? <==> Trace(Checked, j, ptr).Ok?
    ensures At(j, ptr).Ok? ==> At(j, ptr).value == Trace(Checked, j, ptr).value.node
    ensures At(j, ptr).Err? ==> At(j, ptr).error == Trace(Checked, j, ptr).error
    decreases |ptr|
  {
    if ptr != [] && Open(Checked, j, ptr[0]).Ok? {
      AtIsTrace(Peek(Open(Checked, j, ptr[0]).value), ptr[1..]);
    }
  }

  /** Where `at` succeeds, `operator[]` reaches the same node and changes nothing. */
  lemma {:induction false} UncheckedRefinesChecked(j: Json, ptr: Pointer)
    requires At(j, ptr).Ok?
    ensures Trace(Unchecked, j, ptr) == Trace(Checked, j, ptr)
    ensures Trace(Checked, j, ptr).Ok?
    ensures Trace(Checked, j, ptr).value.node == At(j, ptr).value
    ensures Rebuild(Trace(Checked, j, ptr).value.trail, At(j, ptr).value) == j
    decreases |ptr|
  {
    if ptr != [] {
      OpenRefines(j, ptr[0]);
      var f := Open(Checked, j, ptr[0]).value;
      UncheckedRefinesChecked(Peek(f), ptr[1..]);
      PlugPeek(f);
      var c := Trace(Checked, j, ptr).value;
      assert c.trail[1..] == Trace(Checked, Peek(f), ptr[1..]).value.trail;
    }
  }

  /** The pointer to the slots a trail went through. */
  function TrailPointer(trail: seq<Focus>): (ptr: Pointer)
    ensures |ptr| == |trail| && forall i | 0 <= i < |ptr| :: ptr[i] == SlotToken(trail[i].slot)
  {
    if trail == [] then [] else [SlotToken(trail[0].slot)] + TrailPointer(trail[1..])
  }

  /** Whatever is put into an opened slot, `at` finds it there. */
  lemma Reopen(f: Focus, v: Json)
    requires f.slot.Index? ==> f.slot.index < SIZE_MAX
    ensures Open(Checked, Plug(f, v), SlotToken(f.slot)) == Ok(RawFocus(Plug(f, v), f.slot))
    ensures Peek(RawFocus(Plug(f, v), f.slot)) == v
    ensures forall w :: Plug(RawFocus(Plug(f, v), f.slot), w) == Plug(f, w)
  {
    if f.slot.Index? {
      ArrayIndexIsDigits(Digits(f.slot.index), f.slot.index);
    }
    forall w ensures Plug(RawFocus(Plug(f, v), f.slot), w) == Plug(f, w) {
      if f.slot.Key? {
        assert f.container.members[f.slot.key := v][f.slot.key := w] == f.container.members[f.slot.key := w];
      } else {
        assert f.container.items[f.slot.index := v][f.slot.index := w] == f.container.items[f.slot.index := w];
      }
    }
  }

  lemma OpenedSlot(j: Json, t: string)
    requires Open(Unchecked, j, t).Ok? && FitsSizeType(j)
    ensures var f := Open(Unchecked, j, t).value;
            && (f.slot.Index? ==> f.slot.index < SIZE_MAX)
            && FitsSizeType(Peek(f))
            && (!(f.container.Array? && t == "-") ==> SlotToken(f.slot) == t)
  {
    var f := Open(Unchecked, j, t).value;
    if f.slot.Index? && t != "-" { ArrayIndexIsDigits(t, f.slot.index); }
  }

  /** After a successful `operator[]`, `at` finds the same node at the pointer whose
      "-" tokens on arrays are replaced by the index they appended. */
  lemma {:induction false} UncheckedThenChecked(j: Json, ptr: Pointer)
    requires FitsSizeType(j) && Trace(Unchecked, j, ptr).Ok?
    ensures var c := Trace(Unchecked, j, ptr).value;
            && |c.trail| == |ptr|
            && (forall v :: At(Rebuild(c.trail, v), TrailPointer(c.trail)) == Ok(v))
            && forall i | 0 <= i < |ptr| && !(c.trail[i].container.Array? && ptr[i] == "-") ::
                 TrailPointer(c.trail)[i] == ptr[i]
    decreases |ptr|
  {
    if ptr != [] {
      OpenedSlot(j, ptr[0]);
      var f := Open(Unchecked, j, ptr[0]).value;
      var c := Trace(Unchecked, j, ptr).value;
      var c' := Trace(Unchecked, Peek(f), ptr[1..]).value;
      assert c.trail[0] == f && c.trail[1..] == c'.trail;
      UncheckedThenChecked(Peek(f), ptr[1..]);
      forall v ensures At(Rebuild(c.trail, v), TrailPointer(c.trail)) == Ok(v) {
        var w := Rebuild(c'.trail, v);
        Reopen(f, w);
        assert TrailPointer(c.trail)[1..] == TrailPointer(c'.trail);
        assert At(w, TrailPointer(c'.trail)) == Ok(v);
      }
      forall i | 0 <= i < |ptr| && !(c.trail[i].container.Array? && ptr[i] == "-")
        ensures TrailPointer(c.trail)[i] == ptr[i]
      {
        if i > 0 {
          assert c.trail[i] == c'.trail[i - 1] && ptr[i] == ptr[1..][i - 1];
          assert TrailPointer(c'.trail)[i - 1] == ptr[1..][i - 1];
        }
      }
    }
  }

  /** Null, or a container of hollow values. */
  predicate Hollow(j: Json) {
    match j
    case Null => true
    case Object(m) => forall t | t in m :: Hollow(m[t])
    case Array(a) => forall i | 0 <= i < |a| :: Hollow(a[i])
    case _ => false
  }

  /** `k` is `j` with nulls replaced by, and containers extended by, hollow values. */
  predicate Grown(j: Json, k: Json) {
    match j
    case Null => Hollow(k)
    case Object(m) =>
      && k.Object? && m.Keys <= k.members.Keys
      && forall t | t in k.members :: if t in m then Grown(m[t], k.members[t]) else Hollow(k.members[t])
    case Array(a) =>
      && k.Array? && |a| <= |k.items|
      && forall i | 0 <= i < |k.items| :: if i < |a| then Grown(a[i], k.items[i]) else Hollow(k.items[i])
    case _ => k == j
  }

  lemma {:induction false} GrownReflexive(j: Json)
    ensures Grown(j, j)
  {
    match j
    case Object(m) => forall t | t in m ensures Grown(m[t], m[t]) { GrownReflexive(m[t]); }
    case Array(a) => forall i | 0 <= i < |a| ensures Grown(a[i], a[i]) { GrownReflexive(a[i]); }
    case _ =>
  }

  lemma GrowsArray(a: seq<Json>, i: nat, v: Json)
    requires Grown(Grow(a, i)[i], v)
    ensures Grown(Array(a), Array(Grow(a, i)[i := v]))
  {
    forall k | 0 <= k < |a| ensures Grown(a[k], Grow(a, i)[i := v][k]) { GrownReflexive(a[k]); }
  }

  lemma GrowsObject(m: map<string, Json>, t: string, v: Json)
    requires Grown(Ensure(m, t)[t], v)
    ensures Grown(Object(m), Object(Ensure(m, t)[t := v]))
  {
    forall k | k in m ensures Grown(m[k], Ensure(m, t)[t := v][k]) { GrownReflexive(m[k]); }
  }

  lemma GrowsNull(j: Json)
    requires (j.Array? && Grown(Array([]), j)) || (j.Object? && Grown(Object(map[]), j))
    ensures Grown(Null, j)
  {
  }

  /** Opening a slot and growing its value grows the container. */
  lemma OpenGrows(mode: Mode, j: Json, t: string, v: Json)
    requires Open(mode, j, t).Ok? && Grown(Peek(Open(mode, j, t).value), v)
    ensures Grown(j, Plug(Open(mode, j, t).value, v))
  {
    hide Grown, ArrayIndex, AllDigits;
    var f := Open(mode, j, t).value;
    var from := if !j.Null? then j else if f.container.Array? then Array([]) else Object(map[]);
    if f.slot.Key? {
      assert f.container == Object(Ensure(from.members, t));
      GrowsObject(from.members, t, v);
    } else {
      assert f.container == Array(Grow(from.items, f.slot.index));
      GrowsArray(from.items, f.slot.index, v);
    }
    if j.Null? { GrowsNull(Plug(f, v)); }
  }

  /** The only effect of the creating resolvers is growth. */
  lemma {:induction false} TraceGrows(mode: Mode, j: Json, ptr: Pointer)
    requires Trace(mode, j, ptr).Ok?
    ensures var c := Trace(mode, j, ptr).value; Grown(j, Rebuild(c.trail, c.node))
    decreases |ptr|
  {
    if ptr == [] {
      GrownReflexive(j);
    } else {
      var f := Open(mode, j, ptr[0]).value;
      TraceGrows(mode, Peek(f), ptr[1..]);
      var c := Trace(mode, Peek(f), ptr[1..]).value;
      OpenGrows(mode, j, ptr[0], Rebuild(c.trail, c.node));
      assert ([f] + c.trail)[1..] == c.trail;
    }
  }

  /** Also where `operator[]` throws, it has only grown the document. */
  lemma {:induction false} LeftByGrows(j: Json, ptr: Pointer)
    ensures Grown(j, LeftBy(j, ptr))
    decreases |ptr|
  {
    GrownReflexive(j);
    if ptr != [] && Open(Unchecked, j, ptr[0]).Ok? {
      var f := Open(Unchecked, j, ptr[0]).value;
      LeftByGrows(Peek(f), ptr[1..]);
      OpenGrows(Unchecked, j, ptr[0], LeftBy(Peek(f), ptr[1..]));
    }
  }

  /** `operator[]` with this token throws at `j` without converting it. */
  predicate Refuses(j: Json, t: string) {
    match j
    case Null => false
    case Object(_) => false
    case Array(_) => t != "-" && ArrayIndex(t).Err?
    case _ => true
  }

  /** The pointer resolves, or the first value in which it does not refuses its token. */
  predicate Untouched(j: Json, ptr: Pointer)
    decreases |ptr|
  {
    || ptr == []
    || var f := Open(Checked, j, ptr[0]);
       if f.Ok? then Untouched(Peek(f.value), ptr[1..]) else Refuses(j, ptr[0])
  }

  lemma OpenFails(j: Json, t: string)
    requires Open(Checked, j, t).Err?
    ensures Open(Unchecked, j, t).Err? <==> Refuses(j, t) || (j.Null? && AllDigits(t) && ArrayIndex(t).Err?)
    ensures Open(Unchecked, j, t).Ok? ==> forall v :: Plug(Open(Unchecked, j, t).value, v) != j
  {
    var f := Open(Unchecked, j, t);
    if f.Ok? && j.Array? && t != "-" { assert ArrayIndex(t).value >= |j.items|; }
  }

  lemma PlugChanges(f: Focus, v: Json)
    ensures Plug(f, v) == f.container <==> v == Peek(f)
  {
    PlugPeek(f);
    if f.slot.Key? {
      assert Plug(f, v).members[f.slot.key] == v;
    } else {
      assert Plug(f, v).items[f.slot.index] == v;
    }
  }

  /** `operator[]`, returning or throwing, leaves the document as it was exactly when
      the pointer resolves, or fails first in a value that refuses the token. */
  lemma {:induction false} LeftByUnchanged(j: Json, ptr: Pointer)
    ensures LeftBy(j, ptr) == j <==> Untouched(j, ptr)
    decreases |ptr|
  {
    if ptr != [] {
      var t := ptr[0];
      if Open(Checked, j, t).Ok? {
        OpenRefines(j, t);
        var f := Open(Checked, j, t).value;
        LeftByUnchanged(Peek(f), ptr[1..]);
        PlugChanges(f, LeftBy(Peek(f), ptr[1..]));
      } else {
        OpenFails(j, t);
      }
    }
  }

  lemma {:induction false} RebuildOneMore(trail: seq<Focus>, f: Focus, v: Json)
    ensures Rebuild(trail + [f], v) == Rebuild(trail, Plug(f, v))
  {
    if trail == [] {
      assert trail + [f] == [f] && [f][1..] == [];
    } else {
      assert (trail + [f])[1..] == trail[1..] + [f];
      RebuildOneMore(trail[1..], f, v);
    }
  }

  lemma {:induction false} GrownKeepsLeaves(j: Json, k: Json, q: Pointer)
    requires Grown(j, k) && At(j, q).Ok? && !At(j, q).value.Null?
    requires IsPrimitive(At(j, q).value)
    ensures At(k, q) == At(j, q)
    decreases |q|
  {
    if q != [] {
      var f, g := Open(Checked, j, q[0]).value, Open(Checked, k, q[0]).value;
      GrownKeepsLeaves(Peek(f), Peek(g), q[1..]);
    }
  }

  /** `operator[]` never disturbs a pointer that resolved to a non-null primitive. */
  lemma {:induction false} UncheckedKeepsLeaves(j: Json, ptr: Pointer, q: Pointer)
    requires Trace(Unchecked, j, ptr).Ok?
    requires At(j, q).Ok? && IsPrimitive(At(j, q).value) && !At(j, q).value.Null?
    ensures var c := Trace(Unchecked, j, ptr).value; At(Rebuild(c.trail, c.node), q) == At(j, q)
  {
    TraceGrows(Unchecked, j, ptr);
    var c := Trace(Unchecked, j, ptr).value;
    GrownKeepsLeaves(j, Rebuild(c.trail, c.node), q);
  }
}
