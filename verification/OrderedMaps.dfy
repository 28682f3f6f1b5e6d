/** `ordered_map`: a vector of key-value pairs that behaves as a map which
    remembers the order of insertion. */
module OrderedMaps {
  import opened Outcomes

  type Entries<K, V> = seq<(K, V)>

  // ----- specification on the sequence of entries

  /** The position of a key, or the length where it is absent. */
  function IndexOf<K(==), V>(s: Entries<K, V>, k: K): (i: nat)
    ensures i <= |s| && (i < |s| ==> s[i].0 == k) && forall j | 0 <= j < i :: s[j].0 != k
  {
    if s == [] then 0 else if s[0].0 == k then 0 else 1 + IndexOf(s[1..], k)
  }

  function Cut<T>(s: seq<T>, first: nat, last: nat): seq<T>
    requires first <= last <= |s|
  {
    s[..first] + s[last..]
  }

  function Put<K(==), V>(s: Entries<K, V>, k: K, v: V): Entries<K, V> {
    if IndexOf(s, k) < |s| then s else s + [(k, v)]
  }

  function Overwrite<K(==), V>(s: Entries<K, V>, k: K, v: V): Entries<K, V> {
    if IndexOf(s, k) < |s| then s[IndexOf(s, k) := (k, v)] else s + [(k, v)]
  }

  function Drop<K(==), V>(s: Entries<K, V>, k: K): Entries<K, V> {
    var i := IndexOf(s, k);
    if i < |s| then Cut(s, i, i + 1) else s
  }

  predicate Distinct<K(==), V>(s: Entries<K, V>) {
    forall i, j | 0 <= i < j < |s| :: s[i].0 != s[j].0
  }

  // ----- the container

  class OrderedMap<K(==), V> {
    var entries: Entries<K, V>

    constructor ()
      ensures entries == []
    {
      entries := [];
    }

    /** `find`, and the search at the head of most operations. */
    method Find(key: K) returns (it: nat)
      ensures it == IndexOf(entries, key)
    {
      it := 0;
      while it != |entries|
        invariant 0 <= it <= |entries| && IndexOf(entries, key) == it + IndexOf(entries[it..], key)
      {
        assert entries[it..][1..] == entries[it + 1..];
        if entries[it].0 == key { return; }
        it := it + 1;
      }
    }

    method Count(key: K) returns (n: nat)
      ensures n == if exists e :: e in entries && e.0 == key then 1 else 0
    {
      var it := Find(key);
      assert it < |entries| ==> entries[it] in entries;
      n := if it != |entries| then 1 else 0;
    }

    method LookUp(key: K) returns (r: Result<V>)
      ensures var i := IndexOf(entries, key);
              r == if i < |entries| then Ok(entries[i].1) else Err(OutOfRange(0))
    {
      var it := Find(key);
      if it == |entries| { return Err(OutOfRange(0)); }
      r := Ok(entries[it].1);
    }

    method Emplace(key: K, v: V) returns (it: nat, inserted: bool)
      modifies this
      ensures entries == Put(old(entries), key, v)
      ensures inserted <==> |entries| > |old(entries)|
      ensures it < |entries| && entries[it].0 == key && it == IndexOf(old(entries), key)
    {
      it := Find(key);
      if it != |entries| { return it, false; }
      entries := entries + [(key, v)];
      inserted := true;
    }

    /** `insert` of a range of pairs: earlier entries win. */
    method InsertAll(pairs: Entries<K, V>)
      modifies this
      ensures entries == PutAll(old(entries), pairs)
    {
      for n := 0 to |pairs|
        invariant PutAll(entries, pairs[n..]) == PutAll(old(entries), pairs)
      {
        assert pairs[n..][0] == pairs[n] && pairs[n..][1..] == pairs[n + 1..];
        var _, _ := Emplace(pairs[n].0, pairs[n].1);
      }
    }

    /** `operator[]`: the position whose value the returned reference denotes. */
    method Subscript(key: K, blank: V) returns (it: nat)
      modifies this
      ensures entries == Put(old(entries), key, blank)
      ensures it < |entries| && entries[it].0 == key && it == IndexOf(old(entries), key)
    {
      var inserted;
      it, inserted := Emplace(key, blank);
    }

    /** An assignment through `operator[]`. */
    method Store(key: K, blank: V, v: V)
      modifies this
      ensures entries == Overwrite(old(entries), key, v)
    {
      var it := Subscript(key, blank);
      entries := entries[it := (entries[it].0, v)];
    }

    method EraseKey(key: K) returns (n: nat)
      modifies this
      ensures entries == Drop(old(entries), key)
      ensures n == |old(entries)| - |entries|
    {
      ghost var s := entries;
      var it := Find(key);
      if it == |entries| { return 0; }
      ghost var gap := it;
      var next := it + 1;
      while next != |entries|
        invariant gap <= it < next == it + 1 <= |entries| == |s|
        invariant forall j | 0 <= j < gap || it <= j < |s| :: entries[j] == s[j]
        invariant forall j | gap <= j < it :: entries[j] == s[j + 1]
      {
        entries := entries[it := entries[next]];
        it, next := it + 1, next + 1;
      }
      entries := entries[..|entries| - 1];
      assert entries == Cut(s, gap, gap + 1);
      n := 1;
    }

    /** `erase` of a range: the entries behind it move down, one by one. */
    method EraseRange(first: nat, last: nat) returns (it: nat)
      requires first <= last <= |entries|
      modifies this
      ensures entries == Cut(old(entries), first, last)
      ensures it == first && old(entries)[last..] == entries[it..]
    {
      ghost var s := entries;
      if first == last {
        assert Cut(s, first, last) == s;
        return first;
      }
      var affected, offset := last - first, first;
      it := first;
      while it + affected != |entries|
        invariant first <= it && it + affected <= |entries| == |s|
        invariant forall j | 0 <= j < first || it <= j < |s| :: entries[j] == s[j]
        invariant forall j | first <= j < it :: entries[j] == s[j + affected]
        decreases |entries| - it
      {
        entries := entries[it := entries[it + affected]];
        it := it + 1;
      }
      entries := entries[..|entries| - affected];
      assert entries == Cut(s, first, last);
      it := offset;
    }

    method EraseAt(pos: nat) returns (it: nat)
      requires pos < |entries|
      modifies this
      ensures entries == Cut(old(entries), pos, pos + 1) && it == pos
    {
      it := EraseRange(pos, pos + 1);
    }
  }

  function PutAll<K(==), V>(s: Entries<K, V>, pairs: Entries<K, V>): Entries<K, V>
    decreases |pairs|
  {
    if pairs == [] then s else PutAll(Put(s, pairs[0].0, pairs[0].1), pairs[1..])
  }

  // ----- the abstract map with insertion order

  datatype Model<K, V> = Model(order: seq<K>, content: map<K, V>)

  function Order<K, V>(s: Entries<K, V>): (r: seq<K>)
    ensures |r| == |s| && forall i | 0 <= i < |s| :: r[i] == s[i].0
  {
    seq(|s|, i requires 0 <= i < |s| => s[i].0)
  }

  function Content<K(==), V>(s: Entries<K, V>): map<K, V> {
    map k | k in Order(s) :: Lookup(s, k)
  }

  function Lookup<K(==), V>(s: Entries<K, V>, k: K): V
    requires k in Order(s)
  {
    s[IndexOf(s, k)].1
  }

  function View<K(==), V>(s: Entries<K, V>): Model<K, V> { Model(Order(s), Content(s)) }

  /** One call on an `ordered_map`. */
  datatype Call<K, V> =
    | EmplaceCall(key: K, value: V)
    | StoreCall(key: K, value: V)
    | EraseKeyCall(key: K)
    | EraseRangeCall(first: nat, last: nat)

  /** The container after a call; a range outside the container cannot be passed. */
  function Perform<K(==), V>(s: Entries<K, V>, c: Call<K, V>): Entries<K, V> {
    match c
    case EmplaceCall(k, v) => Put(s, k, v)
    case StoreCall(k, v) => Overwrite(s, k, v)
    case EraseKeyCall(k) => Drop(s, k)
    case EraseRangeCall(i, j) => if i <= j <= |s| then Cut(s, i, j) else s
  }

  function WithoutKey<K(==)>(order: seq<K>, k: K): seq<K> {
    if order == [] then []
    else (if order[0] == k then [] else [order[0]]) + WithoutKey(order[1..], k)
  }

  /** What the call means for a map that remembers insertion order. */
  function Meaning<K(==), V>(m: Model<K, V>, c: Call<K, V>): Model<K, V> {
    match c
    case EmplaceCall(k, v) => if k in m.content then m else Model(m.order + [k], m.content[k := v])
    case StoreCall(k, v) => Model(if k in m.content then m.order else m.order + [k], m.content[k := v])
    case EraseKeyCall(k) => Model(WithoutKey(m.order, k), m.content - {k})
    case EraseRangeCall(i, j) =>
      if i <= j <= |m.order|
      then Model(Cut(m.order, i, j), m.content - KeysBetween(m.order, i, j))
      else m
  }

  lemma {:induction false} IndexIsUnique<K, V>(s: Entries<K, V>, i: nat)
    requires Distinct(s) && i < |s|
    ensures IndexOf(s, s[i].0) == i
  {
    assert IndexOf(s, s[i].0) <= i;
  }

  lemma ContentAt<K, V>(s: Entries<K, V>, i: nat)
    requires Distinct(s) && i < |s|
    ensures s[i].0 in Content(s) && Content(s)[s[i].0] == s[i].1
  {
    IndexIsUnique(s, i);
    assert Order(s)[i] == s[i].0;
  }

  lemma ContentKeys<K, V>(s: Entries<K, V>, k: K)
    ensures k in Content(s) <==> IndexOf(s, k) < |s|
  {
    if k in Order(s) {
      var i :| 0 <= i < |s| && Order(s)[i] == k;
      assert s[i].0 == k;
    }
    if IndexOf(s, k) < |s| { assert Order(s)[IndexOf(s, k)] == k; }
  }

  /** Distinct entries are determined by their content. */
  lemma ContentIs<K, V>(s: Entries<K, V>, m: map<K, V>)
    requires Distinct(s)
    requires forall i | 0 <= i < |s| :: s[i].0 in m && m[s[i].0] == s[i].1
    requires forall k | k in m :: IndexOf(s, k) < |s|
    ensures Content(s) == m
  {
    var c: map<K, V> := Content(s);
    forall k ensures k in c <==> k in m {
      ContentKeys(s, k);
      if IndexOf(s, k) < |s| { assert s[IndexOf(s, k)].0 == k; }
    }
    assert c.Keys == m.Keys;
    forall k | k in m ensures c[k] == m[k] {
      ContentAt(s, IndexOf(s, k));
    }
  }

  lemma HasIndex<K, V>(s: Entries<K, V>, k: K)
    ensures IndexOf(s, k) < |s| <==> k in Content(s)
    ensures k in Content(s) <==> k in Order(s)
  {
    ContentKeys(s, k);
  }

  lemma PutRefines<K, V>(s: Entries<K, V>, k: K, v: V)
    requires Distinct(s)
    ensures Distinct(Put(s, k, v)) && View(Put(s, k, v)) == Meaning(View(s), EmplaceCall(k, v))
  {
    HasIndex(s, k);
    if k !in Content(s) {
      var t := s + [(k, v)];
      assert Order(t) == Order(s) + [k];
      forall i | 0 <= i < |t| ensures t[i].0 in Content(s)[k := v] && Content(s)[k := v][t[i].0] == t[i].1 {
        if i < |s| { ContentAt(s, i); }
      }
      forall x | x in Content(s)[k := v] ensures IndexOf(t, x) < |t| {
        if x == k { assert t[|s|].0 == k; } else { HasIndex(s, x); assert t[IndexOf(s, x)].0 == x; }
      }
      ContentIs(t, Content(s)[k := v]);
    }
  }

  lemma OverwriteRefines<K, V>(s: Entries<K, V>, k: K, v: V)
    requires Distinct(s)
    ensures Distinct(Overwrite(s, k, v)) && View(Overwrite(s, k, v)) == Meaning(View(s), StoreCall(k, v))
  {
    HasIndex(s, k);
    if k in Content(s) {
      var n := IndexOf(s, k);
      var t := s[n := (k, v)];
      assert Order(t) == Order(s);
      forall i | 0 <= i < |t| ensures t[i].0 in Content(s)[k := v] && Content(s)[k := v][t[i].0] == t[i].1 {
        ContentAt(s, i);
        if i != n { assert s[i].0 != s[n].0; }
      }
      forall x | x in Content(s)[k := v] ensures IndexOf(t, x) < |t| {
        HasIndex(s, x);
        assert t[IndexOf(s, x)].0 == x;
      }
      ContentIs(t, Content(s)[k := v]);
    } else {
      PutRefines(s, k, v);
    }
  }

  /** The keys of the entries in a range. */
  function KeysBetween<K(==)>(order: seq<K>, i: nat, j: nat): set<K>
    requires i <= j <= |order|
  {
    set k | k in order[i..j]
  }

  lemma KeyBetween<K, V>(s: Entries<K, V>, i: nat, j: nat, n: nat)
    requires Distinct(s) && i <= j <= |s| && n < |s|
    ensures s[n].0 in KeysBetween(Order(s), i, j) <==> i <= n < j
  {
    var range := Order(s)[i..j];
    if i <= n < j {
      assert range[n - i] == s[n].0;
    } else {
      forall d | 0 <= d < |range| ensures range[d] != s[n].0 {
        assert range[d] == s[i + d].0;
      }
    }
  }

  lemma CutAt<T>(s: seq<T>, i: nat, j: nat, n: nat)
    requires i <= j <= |s| && n < |Cut(s, i, j)|
    ensures Cut(s, i, j)[n] == s[if n < i then n else n + (j - i)]
  {
  }

  lemma CutRefines<K, V>(s: Entries<K, V>, i: nat, j: nat)
    requires Distinct(s) && i <= j <= |s|
    ensures Distinct(Cut(s, i, j)) && View(Cut(s, i, j)) == Meaning(View(s), EraseRangeCall(i, j))
  {
    var t := Cut(s, i, j);
    var m := Content(s) - KeysBetween(Order(s), i, j);
    assert Order(t) == Cut(Order(s), i, j);
    forall n | 0 <= n < |t| ensures t[n].0 in m && m[t[n].0] == t[n].1 {
      var from := if n < i then n else n + (j - i);
      CutAt(s, i, j, n);
      ContentAt(s, from);
      KeyBetween(s, i, j, from);
    }
    forall x | x in m ensures IndexOf(t, x) < |t| {
      HasIndex(s, x);
      var from := IndexOf(s, x);
      KeyBetween(s, i, j, from);
      var n := if from < i then from else from - (j - i);
      CutAt(s, i, j, n);
    }
    CutIsDistinct(s, i, j);
    ContentIs(t, m);
  }

  lemma CutIsDistinct<K, V>(s: Entries<K, V>, i: nat, j: nat)
    requires Distinct(s) && i <= j <= |s|
    ensures Distinct(Cut(s, i, j))
  {
    var t := Cut(s, i, j);
    forall a, b | 0 <= a < b < |t| ensures t[a].0 != t[b].0 {
      CutAt(s, i, j, a);
      CutAt(s, i, j, b);
    }
  }

  lemma {:induction false} WithoutKeyIsCut<K>(order: seq<K>, i: nat)
    requires i < |order| && forall a, b | 0 <= a < b < |order| :: order[a] != order[b]
    ensures WithoutKey(order, order[i]) == Cut(order, i, i + 1)
  {
    if i == 0 {
      WithoutAbsent(order[1..], order[0]);
      assert Cut(order, 0, 1) == order[1..];
    } else {
      WithoutKeyIsCut(order[1..], i - 1);
      assert Cut(order, i, i + 1) == [order[0]] + Cut(order[1..], i - 1, i);
    }
  }

  lemma {:induction false} WithoutAbsent<K>(order: seq<K>, k: K)
    requires k !in order
    ensures WithoutKey(order, k) == order
  {
    if order != [] { WithoutAbsent(order[1..], k); }
  }

  lemma OneKeyBetween<K>(order: seq<K>, i: nat)
    requires i < |order|
    ensures KeysBetween(order, i, i + 1) == {order[i]}
  {
    assert order[i..i + 1] == [order[i]];
  }

  lemma EraseOneMeaning<K, V>(s: Entries<K, V>, i: nat)
    requires Distinct(s) && i < |s|
    ensures Meaning(View(s), EraseRangeCall(i, i + 1)) == Meaning(View(s), EraseKeyCall(s[i].0))
  {
    hide WithoutKey, Content, KeysBetween;
    assert Order(s)[i] == s[i].0;
    WithoutKeyIsCut(Order(s), i);
    OneKeyBetween(Order(s), i);
  }

  lemma EraseAbsentMeaning<K, V>(s: Entries<K, V>, k: K)
    requires k !in Order(s)
    ensures Meaning(View(s), EraseKeyCall(k)) == View(s)
  {
    WithoutAbsent(Order(s), k);
    assert Content(s) - {k} == Content(s);
  }

  lemma DropRefines<K, V>(s: Entries<K, V>, k: K)
    requires Distinct(s)
    ensures Distinct(Drop(s, k)) && View(Drop(s, k)) == Meaning(View(s), EraseKeyCall(k))
  {
    hide Meaning, View, Cut, Order, Content;
    HasIndex(s, k);
    var i := IndexOf(s, k);
    if i < |s| {
      CutRefines(s, i, i + 1);
      EraseOneMeaning(s, i);
    } else {
      EraseAbsentMeaning(s, k);
    }
  }

  lemma {:induction false} PerformRefines<K, V>(s: Entries<K, V>, c: Call<K, V>)
    requires Distinct(s)
    ensures Distinct(Perform(s, c)) && View(Perform(s, c)) == Meaning(View(s), c)
  {
    match c
    case EmplaceCall(k, v) => PutRefines(s, k, v);
    case StoreCall(k, v) => OverwriteRefines(s, k, v);
    case EraseKeyCall(k) => DropRefines(s, k);
    case EraseRangeCall(i, j) => if i <= j <= |s| { CutRefines(s, i, j); }
  }

  function PerformAll<K(==), V>(s: Entries<K, V>, calls: seq<Call<K, V>>): Entries<K, V>
    decreases |calls|
  {
    if calls == [] then s else PerformAll(Perform(s, calls[0]), calls[1..])
  }

  function MeaningAll<K(==), V>(m: Model<K, V>, calls: seq<Call<K, V>>): Model<K, V>
    decreases |calls|
  {
    if calls == [] then m else MeaningAll(Meaning(m, calls[0]), calls[1..])
  }

  /** Every history of calls keeps the keys distinct and does to the entries what it
      means for the abstract map. */
  lemma {:induction false} HistoryRefines<K, V>(s: Entries<K, V>, calls: seq<Call<K, V>>)
    requires Distinct(s)
    ensures Distinct(PerformAll(s, calls))
    ensures View(PerformAll(s, calls)) == MeaningAll(View(s), calls)
    decreases |calls|
  {
    if calls != [] {
      PerformRefines(s, calls[0]);
      HistoryRefines(Perform(s, calls[0]), calls[1..]);
    }
  }

  /** Inserting a range is a history of emplaces, so earlier entries win. */
  function Emplaces<K, V>(pairs: Entries<K, V>): (calls: seq<Call<K, V>>)
    ensures |calls| == |pairs| && forall i | 0 <= i < |pairs| :: calls[i] == EmplaceCall(pairs[i].0, pairs[i].1)
  {
    seq(|pairs|, i requires 0 <= i < |pairs| => EmplaceCall(pairs[i].0, pairs[i].1))
  }

  lemma {:induction false} InsertIsEmplaces<K, V>(s: Entries<K, V>, pairs: Entries<K, V>)
    ensures PutAll(s, pairs) == PerformAll(s, Emplaces(pairs))
    decreases |pairs|
  {
    if pairs != [] {
      assert Emplaces(pairs)[1..] == Emplaces(pairs[1..]);
      InsertIsEmplaces(Put(s, pairs[0].0, pairs[0].1), pairs[1..]);
    }
  }

  /** The view loses nothing: containers with the same view are the same. */
  lemma ViewInjective<K, V>(s: Entries<K, V>, t: Entries<K, V>)
    requires Distinct(s) && Distinct(t) && View(s) == View(t)
    ensures s == t
  {
    forall i | 0 <= i < |s| ensures |s| == |t| && s[i] == t[i] {
      assert Order(s)[i] == Order(t)[i];
      ContentAt(s, i); ContentAt(t, i);
    }
  }

  /** A container built by any history from empty is the map and the order that the
      history means. */
  lemma HistoryFromEmpty<K, V>(calls: seq<Call<K, V>>)
    ensures Distinct(PerformAll<K, V>([], calls))
    ensures View(PerformAll<K, V>([], calls)) == MeaningAll(Model([], map[]), calls)
  {
    var empty: Entries<K, V> := [];
    HistoryRefines(empty, calls);
    assert Order(empty) == [] && Content(empty) == map[];
  }
}
