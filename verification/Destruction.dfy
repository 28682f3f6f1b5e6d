/** `json_value::destroy`: nested values are destroyed from an explicit stack, so
    that the depth of the recursion does not follow the depth of the document. */
module Destruction {
  import opened Values
  import opened Trees

  function Total(stack: seq<Json>): nat {
    if stack == [] then 0 else Total(stack[..|stack| - 1]) + Size(stack[|stack| - 1])
  }

  lemma {:induction false} TotalConcat(x: seq<Json>, y: seq<Json>)
    ensures Total(x + y) == Total(x) + Total(y)
    decreases |y|
  {
    if y == [] {
      assert x + y == x;
    } else {
      assert (x + y)[..|x + y| - 1] == x + y[..|y| - 1];
      TotalConcat(x, y[..|y| - 1]);
    }
  }

  lemma {:induction false} TotalOfFirst(j: Json, n: nat)
    requires n <= |Children(j)|
    ensures Total(Children(j)[..n]) == SizeOfFirst(j, n)
    decreases n
  {
    if n > 0 {
      TotalOfFirst(j, n - 1);
      assert Children(j)[..n][..n - 1] == Children(j)[..n - 1];
    }
  }

  lemma TotalOfChildren(j: Json)
    ensures Total(Children(j)) == Size(j) - 1
  {
    TotalOfFirst(j, |Children(j)|);
    assert Children(j)[..|Children(j)|] == Children(j);
  }

  /** All values nested in `j`, each as often as it occurs. */
  function Nested(j: Json): multiset<Json>
    decreases j, 1, 0
  {
    NestedInFirst(j, |Children(j)|)
  }

  function NestedInFirst(j: Json, n: nat): multiset<Json>
    requires n <= |Children(j)|
    decreases j, 0, n
  {
    if n == 0 then multiset{}
    else
      ChildBelow(j, n - 1);
      NestedInFirst(j, n - 1) + multiset{Children(j)[n - 1]} + Nested(Children(j)[n - 1])
  }

  /** The values on the stack and all that is nested in them. */
  function Reach(stack: seq<Json>): multiset<Json> {
    if stack == [] then multiset{}
    else Reach(stack[..|stack| - 1]) + multiset{stack[|stack| - 1]} + Nested(stack[|stack| - 1])
  }

  lemma SumAssociative(x: multiset<Json>, y: multiset<Json>, t: multiset<Json>, n: multiset<Json>)
    ensures (x + y) + t + n == x + (y + t + n)
  {
  }

  lemma {:induction false} ReachConcat(x: seq<Json>, y: seq<Json>)
    ensures Reach(x + y) == Reach(x) + Reach(y)
    decreases |y|
  {
    if y == [] {
      assert x + y == x;
    } else {
      hide Nested;
      var z, top := y[..|y| - 1], y[|y| - 1];
      assert (x + y)[..|x + y| - 1] == x + z;
      ReachConcat(x, z);
      SumAssociative(Reach(x), Reach(z), multiset{top}, Nested(top));
    }
  }

  lemma {:induction false} ReachOfFirst(j: Json, n: nat)
    requires n <= |Children(j)|
    ensures Reach(Children(j)[..n]) == NestedInFirst(j, n)
    decreases n
  {
    if n > 0 {
      ReachOfFirst(j, n - 1);
      assert Children(j)[..n][..n - 1] == Children(j)[..n - 1];
    }
  }

  lemma ReachOfChildren(j: Json)
    ensures Reach(Children(j)) == Nested(j)
  {
    ReachOfFirst(j, |Children(j)|);
    assert Children(j)[..|Children(j)|] == Children(j);
  }

  /** A value after its children have been moved out: the container is cleared. */
  function Shell(j: Json): (s: Json)
    ensures Children(s) == [] && KindOf(s) == KindOf(j)
  {
    if j.Array? then Array([])
    else if j.Object? then Object(map[])
    else j
  }

  /** The order in which a stack is drained: the last item, then its children,
      then the items below it. */
  function Drain(stack: seq<Json>): seq<Json>
    decreases Total(stack)
  {
    if stack == [] then []
    else
      var below, top := stack[..|stack| - 1], stack[|stack| - 1];
      TotalConcat(below, Children(top)); TotalOfChildren(top);
      [top] + Drain(below + Children(top))
  }

  lemma DrainTop(stack: seq<Json>)
    requires stack != []
    ensures var below, top := stack[..|stack| - 1], stack[|stack| - 1];
            && Total(below + Children(top)) == Total(stack) - 1
            && Drain(stack) == [top] + Drain(below + Children(top))
            && Reach(stack) == Reach(below + Children(top)) + multiset{top}
  {
    var below, top := stack[..|stack| - 1], stack[|stack| - 1];
    TotalConcat(below, Children(top)); TotalOfChildren(top);
    ReachConcat(below, Children(top)); ReachOfChildren(top);
    hide Nested, Drain;
    assert Reach(below) + multiset{top} + Nested(top) == Reach(below) + Nested(top) + multiset{top};
  }

  /** Draining pops every reachable value exactly as often as it occurs. */
  lemma {:induction false} DrainPopsAll(stack: seq<Json>)
    ensures multiset(Drain(stack)) == Reach(stack) && |Drain(stack)| == Total(stack)
    decreases Total(stack)
  {
    if stack != [] {
      hide Drain, Reach, Nested;
      DrainTop(stack);
      var below, top := stack[..|stack| - 1], stack[|stack| - 1];
      DrainPopsAll(below + Children(top));
    }
  }

  lemma AppendThen(popped: seq<Json>, top: Json, rest: seq<Json>)
    ensures popped + ([top] + rest) == (popped + [top]) + rest
  {
  }

  lemma DrainMore(popped: seq<Json>, stack: seq<Json>)
    requires stack != []
    ensures var below, top := stack[..|stack| - 1], stack[|stack| - 1];
            popped + Drain(stack) == (popped + [top]) + Drain(below + Children(top))
  {
    hide Drain, Reach, Total, Children;
    DrainTop(stack);
    var top := stack[|stack| - 1];
    AppendThen(popped, top, Drain(stack[..|stack| - 1] + Children(top)));
  }

  lemma DestroyTotals(j: Json)
    ensures multiset(Drain(Children(j))) == Nested(j) && |Drain(Children(j))| == Size(j) - 1
  {
    hide Drain, Nested, Reach;
    DrainPopsAll(Children(j));
    ReachOfChildren(j);
    TotalOfChildren(j);
  }

  /** `destroy`: what it pops, and how deeply destructor calls were nested.  The
      destructor of each popped item is this same function, on the emptied item. */
  method Destroy(j: Json) returns (popped: seq<Json>, depth: nat)
    ensures popped == Drain(Children(j))
    ensures multiset(popped) == Nested(j) && |popped| == Size(j) - 1
    ensures 1 <= depth <= 2 && (depth == 1 <==> Children(j) == [])
    decreases Children(j) != []
  {
    hide Drain, Nested, Total, Size;
    DestroyTotals(j);
    var stack := Children(j);
    popped, depth := [], 1;
    while stack != []
      invariant popped + Drain(stack) == Drain(Children(j))
      invariant Children(j) == [] ==> stack == [] && depth == 1
      invariant 1 <= depth <= 2 && (depth == 1 ==> stack == Children(j))
      decreases Total(stack)
    {
      var item := stack[|stack| - 1];
      DrainTop(stack);
      DrainMore(popped, stack);
      stack := stack[..|stack| - 1] + Children(item);
      popped := popped + [item];
      var none, inner := Destroy(Shell(item));
      if depth < 1 + inner { depth := 1 + inner; }
    }
    DrainNothing(popped);
  }

  lemma DrainNothing(popped: seq<Json>)
    ensures popped + Drain([]) == popped
  {
  }
}
