/** Documents as trees: children in iteration order, and node counts. */
module Trees {
  import opened Text
  import opened Values

  /** The directly nested values, in iteration order. */
  function Children(j: Json): seq<Json> {
    match j
    case Array(a) => a
    case Object(m) =>
      var keys := SortedKeys(m.Keys);
      seq(|keys|, i requires 0 <= i < |keys| => m[keys[i]])
    case _ => []
  }

  /** The number of values in `j`, itself included. */
  function Size(j: Json): (n: nat)
    ensures n >= 1
    decreases j, 1, 0
  {
    1 + SizeOfFirst(j, |Children(j)|)
  }

  function SizeOfFirst(j: Json, n: nat): nat
    requires n <= |Children(j)|
    decreases j, 0, n
  {
    if n == 0 then 0
    else
      ChildBelow(j, n - 1);
      SizeOfFirst(j, n - 1) + Size(Children(j)[n - 1])
  }

  lemma ChildBelow(j: Json, i: nat)
    requires i < |Children(j)|
    ensures Children(j)[i] < j
  {
    match j
    case Array(a) =>
    case Object(m) => assert SortedKeys(m.Keys)[i] in m;
  }

  lemma {:induction false} FirstSmaller(j: Json, n: nat)
    requires n <= |Children(j)|
    ensures SizeOfFirst(j, n) <= SizeOfFirst(j, |Children(j)|)
    decreases |Children(j)| - n
  {
    if n < |Children(j)| { FirstSmaller(j, n + 1); }
  }

  lemma ChildSmaller(j: Json, i: nat)
    requires i < |Children(j)|
    ensures Size(Children(j)[i]) < Size(j)
  {
    FirstSmaller(j, i + 1);
  }
}
