/** JSON Patch (RFC 6902): the interpreter `patch_inplace`. */
module Patch {
  import opened Outcomes
  import opened Values
  import opened Pointers
  import opened Resolution

  datatype Op =
    | Add(ptr: Pointer, value: Json)
    | Remove(ptr: Pointer)
    | Replace(ptr: Pointer, value: Json)
    | Move(from: Pointer, ptr: Pointer)
    | Copy(from: Pointer, ptr: Pointer)
    | Test(ptr: Pointer, value: Json)

  // ----- edits at one place

  /** What is done to the value a pointer leads to. */
  datatype Edit = Assign(value: Json) | Insert(token: string, value: Json) | Erase(token: string)

  function InsertAt(items: seq<Json>, i: nat, v: Json): seq<Json>
    requires i <= |items|
  {
    items[..i] + [v] + items[i..]
  }

  function EraseAt(items: seq<Json>, i: nat): seq<Json>
    requires i < |items|
  {
    items[..i] + items[i + 1..]
  }

  /** `operation_add` at the parent of the new value. */
  function InsertInto(parent: Json, token: string, v: Json): Result<Json> {
    match parent
    case Null => Ok(Object(map[token := v]))
    case Object(m) => Ok(Object(m[token := v]))
    case Array(a) =>
      if token == "-" then Ok(Array(a + [v]))
      else
        var i :- ArrayIndex(token);
        if i > |a| then Err(OutOfRange(401)) else Ok(Array(InsertAt(a, i, v)))
    case _ => Err(AssertionFailed)
  }

  /** `operation_remove` at the parent; a parent that is no container is left alone. */
  function EraseFrom(parent: Json, token: string): Result<Json> {
    match parent
    case Object(m) => if token in m then Ok(Object(m - {token})) else Err(OutOfRange(403))
    case Array(a) =>
      var i :- ArrayIndex(token);
      if i >= |a| then Err(OutOfRange(401)) else Ok(Array(EraseAt(a, i)))
    case _ => Ok(parent)
  }

  function Act(e: Edit, node: Json): Result<Json> {
    match e
    case Assign(v) => Ok(v)
    case Insert(t, v) => InsertInto(node, t, v)
    case Erase(t) => EraseFrom(node, t)
  }

  function EditAt(mode: Mode, doc: Json, ptr: Pointer, e: Edit): Result<Json> {
    var c :- Trace(mode, doc, ptr);
    var v :- Act(e, c.node);
    Ok(Rebuild(c.trail, v))
  }

  /** An edit below `t` edits the child at `t`. */
  lemma EditBelow(mode: Mode, doc: Json, t: string, ptr: Pointer, e: Edit)
    ensures var f := Open(mode, doc, t);
            EditAt(mode, doc, [t] + ptr, e) ==
            if f.Err? then Err(f.error)
            else
              var v := EditAt(mode, Peek(f.value), ptr, e);
              if v.Err? then v else Ok(Plug(f.value, v.value))
  {
    assert ([t] + ptr)[1..] == ptr;
    var f := Open(mode, doc, t);
    if f.Ok? {
      var c := Trace(mode, Peek(f.value), ptr);
      if c.Ok? { assert ([f.value] + c.value.trail)[1..] == c.value.trail; }
    }
  }

  // ----- operations

  function Front(ptr: Pointer): Pointer
    requires ptr != []
  {
    ptr[..|ptr| - 1]
  }

  function Last(ptr: Pointer): string
    requires ptr != []
  {
    ptr[|ptr| - 1]
  }

  function AddAt(doc: Json, ptr: Pointer, v: Json): Result<Json> {
    if ptr == [] then Ok(v)
    else if |ptr| > 1 && At(doc, ptr[..1]).Err? then At(doc, ptr[..1])
    else EditAt(Unchecked, doc, Front(ptr), Insert(Last(ptr), v))
  }

  function RemoveAt(doc: Json, ptr: Pointer): Result<Json> {
    if ptr == [] then Err(OutOfRange(405))
    else EditAt(Checked, doc, Front(ptr), Erase(Last(ptr)))
  }

  function Exec(doc: Json, op: Op): Result<Json> {
    match op
    case Add(ptr, v) => AddAt(doc, ptr, v)
    case Remove(ptr) => RemoveAt(doc, ptr)
    case Replace(ptr, v) => EditAt(Checked, doc, ptr, Assign(v))
    case Move(from, ptr) =>
      var v :- At(doc, from);
      var rest :- RemoveAt(doc, from);
      AddAt(rest, ptr, v)
    case Copy(from, ptr) =>
      var v :- At(doc, from);
      AddAt(doc, ptr, v)
    case Test(ptr, v) =>
      var found := At(doc, ptr);
      if found.Err? && !found.error.OutOfRange? then found
      else if found.Err? || !Equal(found.value, v) then Err(OtherError(501))
      else Ok(doc)
  }

  function Run(doc: Json, ops: seq<Op>): Result<Json>
    decreases |ops|
  {
    if ops == [] then Ok(doc)
    else
      var next :- Exec(doc, ops[0]);
      Run(next, ops[1..])
  }

  lemma {:induction false} RunConcat(doc: Json, x: seq<Op>, y: seq<Op>)
    ensures Run(doc, x + y) == var r := Run(doc, x); if r.Err? then r else Run(r.value, y)
    decreases |x|
  {
    if x == [] {
      assert x + y == y;
    } else {
      assert (x + y)[1..] == x[1..] + y;
      var next := Exec(doc, x[0]);
      if next.Ok? { RunConcat(next.value, x[1..], y); }
    }
  }

  lemma RunOne(doc: Json, op: Op)
    ensures Run(doc, [op]) == Exec(doc, op)
  {
    var next := Exec(doc, op);
    if next.Ok? { assert Run(next.value, []) == next; }
  }

  // ----- patch documents

  /** `get_value`. */
  function Member(m: map<string, Json>, name: string, asString: bool): Result<Json> {
    if name !in m || (asString && !m[name].String?) then Err(ParseError(105)) else Ok(m[name])
  }

  function MemberPointer(m: map<string, Json>, name: string): Result<Pointer> {
    var s :- Member(m, name, true);
    Parse(s.text)
  }

  datatype Operation = AddOp | RemoveOp | ReplaceOp | MoveOp | CopyOp | TestOp | InvalidOp

  /** `get_op`. */
  function GetOp(op: string): Operation {
    if op == "add" then AddOp
    else if op == "remove" then RemoveOp
    else if op == "replace" then ReplaceOp
    else if op == "move" then MoveOp
    else if op == "copy" then CopyOp
    else if op == "test" then TestOp
    else InvalidOp
  }

  function ReadOp(j: Json): Result<Op> {
    if !j.Object? then Err(ParseError(104))
    else
      var m := j.members;
      var op :- Member(m, "op", true);
      var ptr :- MemberPointer(m, "path");
      match GetOp(op.text)
      case AddOp => var v :- Member(m, "value", false); Ok(Add(ptr, v))
      case RemoveOp => Ok(Remove(ptr))
      case ReplaceOp => var v :- Member(m, "value", false); Ok(Replace(ptr, v))
      case MoveOp => var from :- MemberPointer(m, "from"); Ok(Move(from, ptr))
      case CopyOp => var from :- MemberPointer(m, "from"); Ok(Copy(from, ptr))
      case TestOp => var v :- Member(m, "value", false); Ok(Test(ptr, v))
      case InvalidOp => Err(ParseError(105))
  }

  function RunItems(doc: Json, items: seq<Json>): Result<Json>
    decreases |items|
  {
    if items == [] then Ok(doc)
    else
      var op :- ReadOp(items[0]);
      var next :- Exec(doc, op);
      RunItems(next, items[1..])
  }

  function RunPatch(doc: Json, patch: Json): Result<Json> {
    if !patch.Array? then Err(ParseError(104)) else RunItems(doc, patch.items)
  }

  /** An operation as a patch document states it, all its pointers below `path`. */
  function Encode(path: string, op: Op): Json {
    var at := String(path + Print(op.ptr));
    match op
    case Add(_, v) => Object(map["op" := String("add"), "path" := at, "value" := v])
    case Remove(_) => Object(map["op" := String("remove"), "path" := at])
    case Replace(_, v) => Object(map["op" := String("replace"), "path" := at, "value" := v])
    case Move(from, _) => Object(map["op" := String("move"), "path" := at, "from" := String(path + Print(from))])
    case Copy(from, _) => Object(map["op" := String("copy"), "path" := at, "from" := String(path + Print(from))])
    case Test(_, v) => Object(map["op" := String("test"), "path" := at, "value" := v])
  }

  function EncodeAll(path: string, ops: seq<Op>): seq<Json> {
    seq(|ops|, i requires 0 <= i < |ops| => Encode(path, ops[i]))
  }

  lemma NamesDiffer()
    ensures GetOp("add") == AddOp && GetOp("remove") == RemoveOp && GetOp("replace") == ReplaceOp
    ensures GetOp("move") == MoveOp && GetOp("copy") == CopyOp && GetOp("test") == TestOp
    ensures "op" != "path" && "op" != "value" && "op" != "from"
    ensures "path" != "value" && "path" != "from" && "value" != "from"
  {
    assert "path"[0] != "from"[0];
    assert "copy"[0] == 'c' && "move"[0] == 'm' && "test"[0] == 't';
  }

  lemma PointerEncoded(m: map<string, Json>, name: string, ptr: Pointer)
    requires name in m && m[name] == String("" + Print(ptr))
    ensures MemberPointer(m, name) == Ok(ptr)
  {
    ParsePrint(ptr);
    assert "" + Print(ptr) == Print(ptr);
  }

  lemma ReadEncoded(op: Op)
    ensures ReadOp(Encode("", op)) == Ok(op)
  {
    NamesDiffer();
    var m := Encode("", op).members;
    assert m["path"] == String("" + Print(op.ptr));
    PointerEncoded(m, "path", op.ptr);
    if op.Move? || op.Copy? {
      assert m["from"] == String("" + Print(op.from));
      PointerEncoded(m, "from", op.from);
    }
  }

  /** A patch document runs as the operations it encodes. */
  lemma {:induction false} RunEncoded(doc: Json, ops: seq<Op>)
    ensures RunPatch(doc, Array(EncodeAll("", ops))) == Run(doc, ops)
    decreases |ops|
  {
    if ops != [] {
      ReadEncoded(ops[0]);
      assert EncodeAll("", ops)[1..] == EncodeAll("", ops[1..]);
      var next := Exec(doc, ops[0]);
      if next.Ok? { RunEncoded(next.value, ops[1..]); }
    }
  }

  // ----- what a throwing operation leaves behind

  /** The document after a throwing `operation_add`: unless already the first token does
      not resolve, whatever `operator[]` made of it on the way to the parent. */
  function AddLeaves(doc: Json, ptr: Pointer): Json {
    if ptr == [] || (|ptr| > 1 && At(doc, ptr[..1]).Err?) then doc else LeftBy(doc, Front(ptr))
  }

  /** The document after an operation that threw.  A move has removed its source once
      the source is found and is not the root. */
  function LeftBehind(doc: Json, op: Op): Json {
    match op
    case Add(ptr, _) => AddLeaves(doc, ptr)
    case Copy(from, ptr) => if At(doc, from).Err? then doc else AddLeaves(doc, ptr)
    case Move(from, ptr) =>
      if At(doc, from).Err? || RemoveAt(doc, from).Err? then doc else AddLeaves(RemoveAt(doc, from).value, ptr)
    case _ => doc
  }

  /** The document after the entries of a patch, up to the one that throws, if any. */
  function ItemsLeave(doc: Json, items: seq<Json>): Json
    decreases |items|
  {
    if items == [] then doc
    else
      var op := ReadOp(items[0]);
      if op.Err? then doc
      else
        var next := Exec(doc, op.value);
        if next.Err? then LeftBehind(doc, op.value) else ItemsLeave(next.value, items[1..])
  }

  function PatchLeaves(doc: Json, patch: Json): Json {
    if !patch.Array? then doc else ItemsLeave(doc, patch.items)
  }

  // ----- the interpreter

  /** The document that `patch_inplace` edits. */
  class Document {
    var value: Json

    constructor (j: Json)
      ensures value == j
    {
      value := j;
    }

    method OperationAdd(ptr: Pointer, v: Json) returns (status: Status)
      modifies this
      ensures var r := AddAt(old(value), ptr, v);
              if r.Ok? then status == Done && value == r.value
              else status == Threw(r.error) && value == AddLeaves(old(value), ptr)
    {
      if ptr == [] {
        value := v;
        return Done;
      }
      AtIsTrace(value, ptr[..1]);
      if ptr[..1] != ptr {
        var top := GetChecked(value, ptr[..1]);
        if top.Err? { return Threw(top.error); }
      }
      var lastPath := ptr[|ptr| - 1];
      var cursor;
      cursor, value := GetUnchecked(value, ptr[..|ptr| - 1]);
      if cursor.Err? { return Threw(cursor.error); }
      var parent := cursor.value.node;
      if parent.Null? {
        parent := Object(map[lastPath := v]);
      } else if parent.Object? {
        parent := Object(parent.members[lastPath := v]);
      } else if parent.Array? {
        if lastPath == "-" {
          parent := Array(parent.items + [v]);
        } else {
          var i := ArrayIndex(lastPath);
          if i.Err? { return Threw(i.error); }
          if i.value > |parent.items| { return Threw(OutOfRange(401)); }
          parent := Array(InsertAt(parent.items, i.value, v));
        }
      } else {
        return Threw(AssertionFailed);
      }
      value := Rebuild(cursor.value.trail, parent);
      status := Done;
    }

    method OperationRemove(ptr: Pointer) returns (status: Status)
      modifies this
      ensures var r := RemoveAt(old(value), ptr);
              if r.Ok? then status == Done && value == r.value
              else status == Threw(r.error) && value == old(value)
    {
      if ptr == [] { return Threw(OutOfRange(405)); }
      var lastPath := ptr[|ptr| - 1];
      var cursor := GetChecked(value, ptr[..|ptr| - 1]);
      if cursor.Err? { return Threw(cursor.error); }
      var parent := cursor.value.node;
      if parent.Object? {
        if lastPath !in parent.members { return Threw(OutOfRange(403)); }
        parent := Object(parent.members - {lastPath});
      } else if parent.Array? {
        var i := ArrayIndex(lastPath);
        if i.Err? { return Threw(i.error); }
        if i.value >= |parent.items| { return Threw(OutOfRange(401)); }
        parent := Array(EraseAt(parent.items, i.value));
      }
      value := Rebuild(cursor.value.trail, parent);
      status := Done;
    }

    /** `result.at(ptr)` read as a value. */
    method ReadAt(ptr: Pointer) returns (r: Result<Json>)
      ensures r == At(value, ptr)
    {
      AtIsTrace(value, ptr);
      var cursor := GetChecked(value, ptr);
      r := if cursor.Ok? then Ok(cursor.value.node) else Err(cursor.error);
    }

    method Execute(op: Op) returns (status: Status)
      modifies this
      ensures var r := Exec(old(value), op);
              if r.Ok? then status == Done && value == r.value
              else status == Threw(r.error) && value == LeftBehind(old(value), op)
    {
      match op {
        case Add(ptr, v) => status := OperationAdd(ptr, v);
        case Remove(ptr) => status := OperationRemove(ptr);
        case Replace(ptr, v) =>
          var cursor := GetChecked(value, ptr);
          if cursor.Err? { return Threw(cursor.error); }
          value := Rebuild(cursor.value.trail, v);
          status := Done;
        case Move(from, ptr) =>
          var v := ReadAt(from);
          if v.Err? { return Threw(v.error); }
          status := OperationRemove(from);
          if status.Done? { status := OperationAdd(ptr, v.value); }
        case Copy(from, ptr) =>
          var v := ReadAt(from);
          if v.Err? { return Threw(v.error); }
          status := OperationAdd(ptr, v.value);
        case Test(ptr, v) =>
          var found := ReadAt(ptr);
          if found.Err? && !found.error.OutOfRange? { return Threw(found.error); }
          var success := found.Ok? && Equal(found.value, v);
          status := if success then Done else Threw(OtherError(501));
      }
    }

    /** Not atomic: when an entry throws, the entries before it stay applied. */
    method PatchInplace(patch: Json) returns (status: Status)
      modifies this
      ensures var r := RunPatch(old(value), patch);
              if r.Ok? then status == Done && value == r.value else status == Threw(r.error)
      ensures value == PatchLeaves(old(value), patch)
    {
      if !patch.Array? { return Threw(ParseError(104)); }
      var items := patch.items;
      assert items[0..] == items;
      for n := 0 to |items|
        invariant RunItems(value, items[n..]) == RunItems(old(value), items)
        invariant ItemsLeave(value, items[n..]) == ItemsLeave(old(value), items)
      {
        assert items[n..][1..] == items[n + 1..];
        var op := ReadOp(items[n]);
        if op.Err? { return Threw(op.error); }
        status := Execute(op.value);
        if status.Threw? { return; }
      }
      status := Done;
    }
  }

  /** `patch`: the same on a copy. */
  method ApplyPatch(doc: Json, patch: Json) returns (r: Result<Json>)
    ensures r == RunPatch(doc, patch)
  {
    var result := new Document(doc);
    var status := result.PatchInplace(patch);
    r := if status.Done? then Ok(result.value) else Err(status.error);
  }
}
