/** Locality of patches: what a script does below an existing token. */
module Locality {
  import opened Outcomes
  import opened Values
  import opened Pointers
  import opened Resolution
  import opened Patch

  function Prefixed(t: string, op: Op): Op {
    match op
    case Move(from, ptr) => Move([t] + from, [t] + ptr)
    case Copy(from, ptr) => Copy([t] + from, [t] + ptr)
    case Add(ptr, v) => Add([t] + ptr, v)
    case Remove(ptr) => Remove([t] + ptr)
    case Replace(ptr, v) => Replace([t] + ptr, v)
    case Test(ptr, v) => Test([t] + ptr, v)
  }

  /** The operations of `ops`, moved below the token `t`. */
  function Under(t: string, ops: seq<Op>): (r: seq<Op>)
    ensures |r| == |ops| && forall i | 0 <= i < |r| :: r[i] == Prefixed(t, ops[i])
  {
    seq(|ops|, i requires 0 <= i < |ops| => Prefixed(t, ops[i]))
  }

  /** The operation adds and removes only strictly below the root. */
  predicate Inner(op: Op) {
    match op
    case Add(ptr, _) => ptr != []
    case Remove(ptr) => ptr != []
    case Move(from, ptr) => from != [] && ptr != []
    case Copy(_, ptr) => ptr != []
    case _ => true
  }

  lemma AtBelow(doc: Json, t: string, ptr: Pointer)
    requires Open(Checked, doc, t).Ok?
    ensures At(doc, [t] + ptr) == At(Peek(Open(Checked, doc, t).value), ptr)
  {
    assert ([t] + ptr)[1..] == ptr;
  }

  /** What happens to a document when this happens to the value in a slot. */
  function Lift(f: Focus, r: Result<Json>): Result<Json> {
    if r.Err? then r else Ok(Plug(f, r.value))
  }

  // ----- what a prefix makes of an operation

  /** `operation_add` without its check that the first token exists. */
  function LooseAdd(doc: Json, ptr: Pointer, v: Json): Result<Json> {
    if ptr == [] then Ok(v) else EditAt(Unchecked, doc, Front(ptr), Insert(Last(ptr), v))
  }

  /** An operation whose add does not check the first token. */
  function Loose(doc: Json, op: Op): Result<Json> {
    match op
    case Add(ptr, v) => LooseAdd(doc, ptr, v)
    case Move(from, ptr) =>
      var v :- At(doc, from);
      var rest :- RemoveAt(doc, from);
      LooseAdd(rest, ptr, v)
    case Copy(from, ptr) =>
      var v :- At(doc, from);
      LooseAdd(doc, ptr, v)
    case _ => Exec(doc, op)
  }

  function LooseRun(doc: Json, ops: seq<Op>): Result<Json>
    decreases |ops|
  {
    if ops == [] then Ok(doc)
    else
      var next :- Loose(doc, ops[0]);
      LooseRun(next, ops[1..])
  }

  function LooseAddLeaves(doc: Json, ptr: Pointer): Json {
    if ptr == [] then doc else LeftBy(doc, Front(ptr))
  }

  /** What such an operation leaves behind when it throws. */
  function LooseLeaves(doc: Json, op: Op): Json {
    match op
    case Add(ptr, _) => LooseAddLeaves(doc, ptr)
    case Copy(from, ptr) => if At(doc, from).Err? then doc else LooseAddLeaves(doc, ptr)
    case Move(from, ptr) =>
      if At(doc, from).Err? || RemoveAt(doc, from).Err? then doc else LooseAddLeaves(RemoveAt(doc, from).value, ptr)
    case _ => doc
  }

  /** The document after a script, up to the operation that throws, if any. */
  function RunLeaves(doc: Json, ops: seq<Op>): Json
    decreases |ops|
  {
    if ops == [] then doc
    else
      var next := Exec(doc, ops[0]);
      if next.Err? then LeftBehind(doc, ops[0]) else RunLeaves(next.value, ops[1..])
  }

  function LooseRunLeaves(doc: Json, ops: seq<Op>): Json
    decreases |ops|
  {
    if ops == [] then doc
    else
      var next := Loose(doc, ops[0]);
      if next.Err? then LooseLeaves(doc, ops[0]) else LooseRunLeaves(next.value, ops[1..])
  }

  /** `RunLeaves` is what the patch document that states the script leaves. */
  lemma {:induction false} LeavesEncoded(doc: Json, ops: seq<Op>)
    ensures PatchLeaves(doc, Array(EncodeAll("", ops))) == RunLeaves(doc, ops)
    decreases |ops|
  {
    if ops != [] {
      ReadEncoded(ops[0]);
      assert EncodeAll("", ops)[1..] == EncodeAll("", ops[1..]);
      var next := Exec(doc, ops[0]);
      if next.Ok? { LeavesEncoded(next.value, ops[1..]); }
    }
  }

  // ----- one operation

  /** An add below `t` happens in the child at `t`, without the child's check that
      the first token of the inner pointer exists. */
  lemma AddBelow(doc: Json, t: string, ptr: Pointer, v: Json)
    requires ptr != [] && Open(Checked, doc, t).Ok?
    ensures var f := Open(Checked, doc, t).value;
            AddAt(doc, [t] + ptr, v) == Lift(f, LooseAdd(Peek(f), ptr, v))
  {
    OpenRefines(doc, t);
    assert ([t] + ptr)[..1] == [t] + [] && Front([t] + ptr) == [t] + Front(ptr);
    AtBelow(doc, t, []);
    EditBelow(Unchecked, doc, t, Front(ptr), Insert(Last(ptr), v));
  }

  lemma RemoveBelow(doc: Json, t: string, ptr: Pointer)
    requires ptr != [] && Open(Checked, doc, t).Ok?
    ensures var f := Open(Checked, doc, t).value;
            var inner := RemoveAt(Peek(f), ptr);
            RemoveAt(doc, [t] + ptr) == if inner.Err? then inner else Ok(Plug(f, inner.value))
  {
    assert Front([t] + ptr) == [t] + Front(ptr);
    EditBelow(Checked, doc, t, Front(ptr), Erase(Last(ptr)));
  }

  /** The slot an existing token opens stays open at that token after any change
      of the child. */
  lemma OpenAgain(doc: Json, t: string, v: Json)
    requires Open(Checked, doc, t).Ok?
    ensures var f := Open(Checked, doc, t).value;
            && Open(Checked, Plug(f, v), t).Ok?
            && Peek(Open(Checked, Plug(f, v), t).value) == v
            && forall w :: Plug(Open(Checked, Plug(f, v), t).value, w) == Plug(f, w)
  {
    OpenRefines(doc, t);
    var f := Open(Checked, doc, t).value;
    Reopen(f, v);
  }

  lemma LeavesBelow(doc: Json, t: string, ptr: Pointer)
    requires ptr != [] && Open(Checked, doc, t).Ok?
    ensures var f := Open(Checked, doc, t).value;
            AddLeaves(doc, [t] + ptr) == Plug(f, LooseAddLeaves(Peek(f), ptr))
  {
    OpenRefines(doc, t);
    assert ([t] + ptr)[..1] == [t] + [] && Front([t] + ptr) == [t] + Front(ptr);
    AtBelow(doc, t, []);
    assert ([t] + Front(ptr))[1..] == Front(ptr);
  }

  lemma MoveBelow(doc: Json, t: string, from: Pointer, ptr: Pointer)
    requires Open(Checked, doc, t).Ok? && Inner(Move(from, ptr))
    ensures var f, op := Open(Checked, doc, t).value, Move(from, ptr);
            && Exec(doc, Prefixed(t, op)) == Lift(f, Loose(Peek(f), op))
            && LeftBehind(doc, Prefixed(t, op)) == Plug(f, LooseLeaves(Peek(f), op))
  {
    OpenRefines(doc, t);
    PlugPeek(Open(Checked, doc, t).value);
    hide AddAt, AddLeaves, LooseAdd, LooseAddLeaves, RemoveAt, Open, Plug, Peek;
    var f := Open(Checked, doc, t).value;
    var v, rest := At(Peek(f), from), RemoveAt(Peek(f), from);
    AtBelow(doc, t, from);
    RemoveBelow(doc, t, from);
    if v.Ok? && rest.Ok? {
      OpenAgain(doc, t, rest.value);
      AddBelow(Plug(f, rest.value), t, ptr, v.value);
      LeavesBelow(Plug(f, rest.value), t, ptr);
    }
  }

  /** An operation below `t` does to the child at `t` exactly what it does there alone
      without the check of the first token, and so does what it leaves when it throws. */
  lemma ExecBelowExactly(doc: Json, t: string, op: Op)
    requires Open(Checked, doc, t).Ok? && Inner(op)
    ensures var f := Open(Checked, doc, t).value;
            && Exec(doc, Prefixed(t, op)) == Lift(f, Loose(Peek(f), op))
            && LeftBehind(doc, Prefixed(t, op)) == Plug(f, LooseLeaves(Peek(f), op))
  {
    OpenRefines(doc, t);
    PlugPeek(Open(Checked, doc, t).value);
    match op
    case Add(ptr, v) =>
      AddBelow(doc, t, ptr, v);
      LeavesBelow(doc, t, ptr);
    case Remove(ptr) => RemoveBelow(doc, t, ptr);
    case Replace(ptr, v) => EditBelow(Checked, doc, t, ptr, Assign(v));
    case Move(from, ptr) => MoveBelow(doc, t, from, ptr);
    case Copy(from, ptr) =>
      AtBelow(doc, t, from);
      LeavesBelow(doc, t, ptr);
      var v := At(Peek(Open(Checked, doc, t).value), from);
      if v.Ok? { AddBelow(doc, t, ptr, v.value); }
    case Test(ptr, v) => AtBelow(doc, t, ptr);
  }

  // ----- scripts

  /** Locality: a script run below `t` changes only the child at `t`, whether or not it
      throws.  It does to it what it does there alone, except that its adds do not
      check their first token. */
  lemma {:induction false} RunBelowExactly(doc: Json, t: string, ops: seq<Op>)
    requires Open(Checked, doc, t).Ok? && forall i | 0 <= i < |ops| :: Inner(ops[i])
    ensures var f := Open(Checked, doc, t).value;
            && Run(doc, Under(t, ops)) == Lift(f, LooseRun(Peek(f), ops))
            && RunLeaves(doc, Under(t, ops)) == Plug(f, LooseRunLeaves(Peek(f), ops))
    decreases |ops|
  {
    hide Exec, Loose, LeftBehind, LooseLeaves;
    var f := Open(Checked, doc, t).value;
    PlugPeek(f);
    OpenRefines(doc, t);
    if ops != [] {
      ExecBelowExactly(doc, t, ops[0]);
      assert Under(t, ops)[1..] == Under(t, ops[1..]);
      if Loose(Peek(f), ops[0]).Ok? {
        var v := Loose(Peek(f), ops[0]).value;
        OpenAgain(doc, t, v);
        RunBelowExactly(Plug(f, v), t, ops[1..]);
      }
    }
  }

  // ----- scripts whose adds would pass the check

  /** The first token of an added pointer exists, as the check in `operation_add`
      demands when there are more tokens. */
  predicate Grounded(doc: Json, ptr: Pointer) { |ptr| > 1 ==> At(doc, ptr[..1]).Ok? }

  /** The same for the add that an operation ends with, if it gets there. */
  predicate OpGrounded(doc: Json, op: Op) {
    match op
    case Add(ptr, _) => Grounded(doc, ptr)
    case Copy(_, ptr) => Grounded(doc, ptr)
    case Move(from, ptr) => RemoveAt(doc, from).Ok? ==> Grounded(RemoveAt(doc, from).value, ptr)
    case _ => true
  }

  /** The same for every operation of a script, up to the one that throws. */
  predicate RunGrounded(doc: Json, ops: seq<Op>)
    decreases |ops|
  {
    ops == [] || (
      && OpGrounded(doc, ops[0])
      && (Exec(doc, ops[0]).Ok? ==> RunGrounded(Exec(doc, ops[0]).value, ops[1..])))
  }

  lemma GroundedAdd(doc: Json, ptr: Pointer, v: Json)
    ensures Grounded(doc, ptr) ==>
              LooseAdd(doc, ptr, v) == AddAt(doc, ptr, v) && LooseAddLeaves(doc, ptr) == AddLeaves(doc, ptr)
    ensures AddAt(doc, ptr, v).Ok? ==> Grounded(doc, ptr)
  {
  }

  /** The check makes no difference to grounded operations, and those that succeed with
      it are grounded. */
  lemma GroundedIsLoose(doc: Json, op: Op)
    ensures OpGrounded(doc, op) ==> Loose(doc, op) == Exec(doc, op) && LooseLeaves(doc, op) == LeftBehind(doc, op)
    ensures Exec(doc, op).Ok? ==> OpGrounded(doc, op)
  {
    hide LooseAdd, AddAt, LooseAddLeaves, AddLeaves, Grounded;
    match op
    case Add(ptr, v) => GroundedAdd(doc, ptr, v);
    case Copy(from, ptr) => if At(doc, from).Ok? { GroundedAdd(doc, ptr, At(doc, from).value); }
    case Move(from, ptr) =>
      if At(doc, from).Ok? && RemoveAt(doc, from).Ok? {
        GroundedAdd(RemoveAt(doc, from).value, ptr, At(doc, from).value);
      }
    case _ =>
  }

  lemma {:induction false} RunGroundedIsLoose(doc: Json, ops: seq<Op>)
    ensures RunGrounded(doc, ops) ==>
              LooseRun(doc, ops) == Run(doc, ops) && LooseRunLeaves(doc, ops) == RunLeaves(doc, ops)
    ensures Run(doc, ops).Ok? ==> RunGrounded(doc, ops)
    decreases |ops|
  {
    if ops != [] {
      hide Exec, Loose, LeftBehind, LooseLeaves, OpGrounded;
      GroundedIsLoose(doc, ops[0]);
      if Exec(doc, ops[0]).Ok? { RunGroundedIsLoose(Exec(doc, ops[0]).value, ops[1..]); }
    }
  }

  /** A script whose adds are grounded in the child does to the child below `t` what it
      does to it alone, or throws the same exception and leaves the same behind; a
      script that succeeds on the child alone is grounded. */
  lemma RunBelow(doc: Json, t: string, ops: seq<Op>)
    requires Open(Checked, doc, t).Ok? && forall i | 0 <= i < |ops| :: Inner(ops[i])
    ensures var f := Open(Checked, doc, t).value;
            && (RunGrounded(Peek(f), ops) ==>
                  && Run(doc, Under(t, ops)) == Lift(f, Run(Peek(f), ops))
                  && RunLeaves(doc, Under(t, ops)) == Plug(f, RunLeaves(Peek(f), ops)))
            && (Run(Peek(f), ops).Ok? ==> RunGrounded(Peek(f), ops))
  {
    RunBelowExactly(doc, t, ops);
    RunGroundedIsLoose(Peek(Open(Checked, doc, t).value), ops);
  }

  /** A script that throws on the child alone succeeds below `t` exactly when it
      succeeds without the checks and some add does not pass its check. */
  lemma RunBelowDiffers(doc: Json, t: string, ops: seq<Op>)
    requires Open(Checked, doc, t).Ok? && forall i | 0 <= i < |ops| :: Inner(ops[i])
    ensures var child := Peek(Open(Checked, doc, t).value);
            Run(doc, Under(t, ops)).Ok? && Run(child, ops).Err? <==>
            LooseRun(child, ops).Ok? && !RunGrounded(child, ops)
  {
    RunBelowExactly(doc, t, ops);
    RunGroundedIsLoose(Peek(Open(Checked, doc, t).value), ops);
  }
}
