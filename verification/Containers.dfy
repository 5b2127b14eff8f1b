/** The ordered containers (arilrt/containers.go): in-place structures over a map and a slice,
    against an association list. */
module Containers {
  import opened Wrappers

  // ---------------------------------------------------------------- an association list

  type Assoc<K, V> = seq<(K, V)>

  function Lookup<K(==), V>(l: Assoc<K, V>, k: K): Option<V> {
    if l == [] then None else if l[0].0 == k then Some(l[0].1) else Lookup(l[1..], k)
  }

  /** Sets k in place, or appends it. */
  function Put<K(==), V>(l: Assoc<K, V>, k: K, v: V): Assoc<K, V> {
    if l == [] then [(k, v)] else if l[0].0 == k then [(k, v)] + l[1..] else [l[0]] + Put(l[1..], k, v)
  }

  function Remove<K(==), V>(l: Assoc<K, V>, k: K): Assoc<K, V> {
    if l == [] then [] else if l[0].0 == k then l[1..] else [l[0]] + Remove(l[1..], k)
  }

  function KeysOf<K, V>(l: Assoc<K, V>): seq<K> { seq(|l|, i requires 0 <= i < |l| => l[i].0) }
  function ValuesOf<K, V>(l: Assoc<K, V>): seq<V> { seq(|l|, i requires 0 <= i < |l| => l[i].1) }

  predicate Distinct<T(==)>(xs: seq<T>) { forall i, j :: 0 <= i < j < |xs| ==> xs[i] != xs[j] }

  /** A map and the order of its keys. */
  predicate Ordered<K(==), V>(m: map<K, V>, order: seq<K>) {
    Distinct(order) && (forall k :: k in order ==> k in m) && (forall k :: k in m ==> k in order)
  }

  /** The association list the two stand for. */
  function ListOf<K(==), V>(m: map<K, V>, order: seq<K>): Assoc<K, V>
    requires forall k :: k in order ==> k in m
  {
    seq(|order|, i requires 0 <= i < |order| => (order[i], m[order[i]]))
  }

  lemma {:induction false} LookupAt<K, V>(l: Assoc<K, V>, i: nat)
    requires i < |l| && Distinct(KeysOf(l))
    ensures Lookup(l, l[i].0) == Some(l[i].1)
    decreases |l|
  {
    assert KeysOf(l)[i] == l[i].0 && KeysOf(l)[0] == l[0].0;
    if i > 0 {
      DistinctTail(l);
      LookupAt(l[1..], i - 1);
    }
  }

  lemma DistinctTail<K, V>(l: Assoc<K, V>)
    requires l != [] && Distinct(KeysOf(l))
    ensures Distinct(KeysOf(l[1..])) && KeysOf(l)[1..] == KeysOf(l[1..])
  {
    assert KeysOf(l)[1..] == KeysOf(l[1..]);
  }

  lemma {:induction false} PutMissing<K, V>(l: Assoc<K, V>, k: K, v: V)
    requires k !in KeysOf(l)
    ensures Put(l, k, v) == l + [(k, v)]
    decreases |l|
  {
    if l != [] {
      assert KeysOf(l)[0] == l[0].0;
      forall i | 0 <= i < |l[1..]| ensures KeysOf(l[1..])[i] != k { assert KeysOf(l)[i + 1] == l[1..][i].0; }
      PutMissing(l[1..], k, v);
    }
  }

  lemma {:induction false} RemoveMissing<K, V>(l: Assoc<K, V>, k: K)
    requires k !in KeysOf(l)
    ensures Lookup(l, k) == None && Remove(l, k) == l
    decreases |l|
  {
    if l != [] {
      assert KeysOf(l)[0] == l[0].0;
      forall i | 0 <= i < |l[1..]| ensures KeysOf(l[1..])[i] != k { assert KeysOf(l)[i + 1] == l[1..][i].0; }
      RemoveMissing(l[1..], k);
    }
  }

  lemma {:induction false} PutAt<K, V>(l: Assoc<K, V>, i: nat, v: V)
    requires i < |l| && Distinct(KeysOf(l))
    ensures Put(l, l[i].0, v) == l[i := (l[i].0, v)] && Remove(l, l[i].0) == l[..i] + l[i + 1..]
    decreases |l|
  {
    assert KeysOf(l)[i] == l[i].0 && KeysOf(l)[0] == l[0].0;
    if i == 0 {
      assert l == [l[0]] + l[1..];
    } else {
      DistinctTail(l);
      PutAt(l[1..], i - 1, v);
      assert l == [l[0]] + l[1..];
    }
  }

  // ---------------------------------------------------------------- what the map and the order stand for

  lemma KeysOfList<K, V>(m: map<K, V>, order: seq<K>)
    requires forall k :: k in order ==> k in m
    ensures KeysOf(ListOf(m, order)) == order
  {
  }

  /** Where k is in the order. */
  method Position<K(==)>(order: seq<K>, k: K) returns (i: nat)
    requires k in order
    ensures i < |order| && order[i] == k
  {
    i := 0;
    while order[i] != k
      invariant i < |order| && forall j :: 0 <= j < i ==> order[j] != k
      decreases |order| - i
    {
      i := i + 1;
    }
  }

  lemma LookupIs<K, V>(m: map<K, V>, order: seq<K>, k: K)
    requires Ordered(m, order)
    ensures Lookup(ListOf(m, order), k) == if k in m then Some(m[k]) else None
  {
    var l := ListOf(m, order);
    KeysOfList(m, order);
    if k in m {
      var i :| 0 <= i < |order| && order[i] == k;
      LookupAt(l, i);
    } else {
      RemoveMissing(l, k);
    }
  }

  /** Setting a key keeps its place, or appends it. */
  lemma SetIs<K, V>(m: map<K, V>, order: seq<K>, k: K, v: V)
    requires Ordered(m, order)
    ensures var order' := if k in m then order else order + [k];
            Ordered(m[k := v], order') && ListOf(m[k := v], order') == Put(ListOf(m, order), k, v)
  {
    hide Put, KeysOf;
    var l := ListOf(m, order);
    KeysOfList(m, order);
    if k in m {
      var i :| 0 <= i < |order| && order[i] == k;
      PutAt(l, i, v);
      assert ListOf(m[k := v], order) == l[i := (k, v)];
    } else {
      PutMissing(l, k, v);
      assert ListOf(m[k := v], order + [k]) == l + [(k, v)];
    }
  }

  function Without<T>(xs: seq<T>, i: nat): seq<T>
    requires i < |xs|
  {
    xs[..i] + xs[i + 1..]
  }

  lemma WithoutKeeps<T>(xs: seq<T>, i: nat)
    requires i < |xs| && Distinct(xs)
    ensures Distinct(Without(xs, i)) && forall x :: x in Without(xs, i) <==> x in xs && x != xs[i]
  {
    forall x | x in xs && x != xs[i] ensures x in Without(xs, i) {
      var j :| 0 <= j < |xs| && xs[j] == x;
      assert Without(xs, i)[if j < i then j else j - 1] == x;
    }
  }

  /** Deleting takes the key out of the map and out of its place in the order. */
  lemma DeleteIs<K, V>(m: map<K, V>, order: seq<K>, i: nat)
    requires Ordered(m, order) && i < |order|
    ensures Ordered(m - {order[i]}, Without(order, i))
    ensures ListOf(m - {order[i]}, Without(order, i)) == Remove(ListOf(m, order), order[i])
  {
    var l := ListOf(m, order);
    KeysOfList(m, order);
    PutAt(l, i, m[order[i]]);
    WithoutKeeps(order, i);
    assert ListOf(m - {order[i]}, Without(order, i)) == Without(l, i);
  }

  // ---------------------------------------------------------------- runs

  datatype Op<K, V> = SetOp(k: K, v: V) | DeleteOp(k: K)

  function Apply<K(==), V>(l: Assoc<K, V>, ops: seq<Op<K, V>>): Assoc<K, V>
    decreases |ops|
  {
    if ops == [] then l else
    Apply(match ops[0] case SetOp(k, v) => Put(l, k, v) case DeleteOp(k) => Remove(l, k), ops[1..])
  }

  lemma {:induction false} PutKeys<K, V>(l: Assoc<K, V>, k: K, v: V)
    requires Distinct(KeysOf(l))
    ensures Distinct(KeysOf(Put(l, k, v)))
    ensures KeysOf(Put(l, k, v)) == if k in KeysOf(l) then KeysOf(l) else KeysOf(l) + [k]
    ensures Lookup(Put(l, k, v), k) == Some(v)
  {
    if k in KeysOf(l) {
      var i :| 0 <= i < |l| && KeysOf(l)[i] == k;
      PutAt(l, i, v);
      assert KeysOf(Put(l, k, v)) == KeysOf(l);
      LookupAt(Put(l, k, v), i);
    } else {
      PutMissing(l, k, v);
      var more := l + [(k, v)];
      assert KeysOf(more) == KeysOf(l) + [k];
      LookupAt(more, |l|);
    }
  }

  lemma {:induction false} RemoveKeys<K, V>(l: Assoc<K, V>, k: K)
    requires Distinct(KeysOf(l))
    ensures Distinct(KeysOf(Remove(l, k))) && k !in KeysOf(Remove(l, k))
    ensures forall x :: x != k ==> (x in KeysOf(Remove(l, k)) <==> x in KeysOf(l))
  {
    if k in KeysOf(l) {
      var i :| 0 <= i < |l| && KeysOf(l)[i] == k;
      PutAt(l, i, l[i].1);
      assert KeysOf(Remove(l, k)) == Without(KeysOf(l), i);
      WithoutKeeps(KeysOf(l), i);
    } else {
      RemoveMissing(l, k);
    }
  }

  /** Over any run of operations the keys stay distinct. */
  lemma {:induction false} RunsKeepKeysDistinct<K, V>(l: Assoc<K, V>, ops: seq<Op<K, V>>)
    requires Distinct(KeysOf(l))
    ensures Distinct(KeysOf(Apply(l, ops)))
    decreases |ops|
  {
    if ops != [] {
      match ops[0]
      case SetOp(k, v) => PutKeys(l, k, v); RunsKeepKeysDistinct(Put(l, k, v), ops[1..]);
      case DeleteOp(k) => RemoveKeys(l, k); RunsKeepKeysDistinct(Remove(l, k), ops[1..]);
    }
  }

  lemma ApplyOne<K, V>(l: Assoc<K, V>, k: K, v: V)
    ensures Apply(l, [SetOp(k, v)]) == Put(l, k, v)
  {
    var ops: seq<Op<K, V>> := [SetOp(k, v)];
    assert ops[1..] == [];
    assert Apply(Put(l, k, v), ops[1..]) == Put(l, k, v);
  }

  /** Overwriting keeps a key's place; deleting it first moves it to the end. */
  lemma DeleteThenSetMovesToEnd<K, V>(l: Assoc<K, V>, k: K, v: V, w: V)
    requires Distinct(KeysOf(l)) && k in KeysOf(l)
    ensures KeysOf(Apply(l, [SetOp(k, v), SetOp(k, w)])) == KeysOf(l)
    ensures Apply(l, [DeleteOp(k), SetOp(k, v)]) == Remove(l, k) + [(k, v)]
  {
    var twice: seq<Op<K, V>>, moved: seq<Op<K, V>> := [SetOp(k, v), SetOp(k, w)], [DeleteOp(k), SetOp(k, v)];
    assert twice[1..] == [SetOp(k, w)] && moved[1..] == [SetOp(k, v)];
    ApplyOne(Put(l, k, v), k, w);
    ApplyOne(Remove(l, k), k, v);
    PutKeys(l, k, v);
    PutKeys(Put(l, k, v), k, w);
    RemoveKeys(l, k);
    PutMissing(Remove(l, k), k, v);
  }

  /** Keys and values stay aligned: the i-th value is what the i-th key looks up. */
  lemma KeysAndValuesAlign<K, V>(l: Assoc<K, V>, i: nat)
    requires Distinct(KeysOf(l)) && i < |l|
    ensures |KeysOf(l)| == |ValuesOf(l)| && Lookup(l, KeysOf(l)[i]) == Some(ValuesOf(l)[i])
  {
    LookupAt(l, i);
  }

  // ---------------------------------------------------------------- Map

  class Map<K(==,!new), V(!new)> {
    var m: map<K, V>
    var order: seq<K>

    constructor ()
      ensures Valid() && Contents() == []
    {
      m, order := map[], [];
    }

    ghost predicate Valid()
      reads this
    {
      Ordered(m, order)
    }

    /** The association list the map stands for: its entries, in insertion order. */
    function Contents(): Assoc<K, V>
      requires forall k :: k in order ==> k in m
      reads this
    {
      ListOf(m, order)
    }

    method Len() returns (n: nat)
      requires Valid()
      ensures n == |Contents()|
    {
      n := |order|;
    }

    method Has(k: K) returns (b: bool)
      requires Valid()
      ensures b == Lookup(Contents(), k).Some?
    {
      LookupIs(m, order, k);
      b := k in m;
    }

    method Get(k: K) returns (r: Option<V>)
      requires Valid()
      ensures r == Lookup(Contents(), k)
    {
      LookupIs(m, order, k);
      r := if k in m then Some(m[k]) else None;
    }

    method Set(k: K, v: V)
      requires Valid()
      modifies this
      ensures Valid() && Contents() == Put(old(Contents()), k, v)
    {
      SetIs(m, order, k, v);
      if k !in m { order := order + [k]; }
      m := m[k := v];
    }

    method Delete(k: K)
      requires Valid()
      modifies this
      ensures Valid() && Contents() == Remove(old(Contents()), k)
    {
      if k !in m {
        RemoveMissing(Contents(), k);
        return;
      }
      var i := Position(order, k);
      DeleteIs(m, order, i);
      m := m - {k};
      order := Without(order, i);
    }

    method Keys() returns (out: seq<K>)
      requires Valid()
      ensures out == KeysOf(Contents())
    {
      out := order;
    }

    method Values() returns (out: seq<V>)
      requires Valid()
      ensures out == ValuesOf(Contents())
    {
      out := [];
      for i := 0 to |order|
        invariant out == ValuesOf(Contents())[..i]
      {
        out := out + [m[order[i]]];
      }
    }
  }

  // ---------------------------------------------------------------- Set

  /** The elements, without those that were there before. */
  function Deduped<T(==)>(elems: seq<T>): seq<T>
    decreases |elems|
  {
    if elems == [] then [] else
    var before, e := Deduped(elems[..|elems| - 1]), elems[|elems| - 1];
    if e in before then before else before + [e]
  }

  lemma {:induction false} DedupedKeepsElements<T>(elems: seq<T>)
    ensures Distinct(Deduped(elems)) && forall e :: e in Deduped(elems) <==> e in elems
    decreases |elems|
  {
    if elems != [] {
      DedupedKeepsElements(elems[..|elems| - 1]);
      assert elems == elems[..|elems| - 1] + [elems[|elems| - 1]];
    }
  }

  class OrderedSet<T(==,!new)> {
    var m: set<T>
    var order: seq<T>

    constructor ()
      ensures Valid() && order == []
    {
      m, order := {}, [];
    }

    /** SetFrom. */
    constructor From(elems: seq<T>)
      ensures Valid() && order == Deduped(elems)
    {
      m, order := {}, [];
      new;
      for i := 0 to |elems|
        invariant Valid() && order == Deduped(elems[..i])
      {
        assert elems[..i + 1][..i] == elems[..i];
        Add(elems[i]);
      }
      assert elems[..|elems|] == elems;
    }

    ghost predicate Valid()
      reads this
    {
      Distinct(order) && forall e :: e in m <==> e in order
    }

    method Has(e: T) returns (b: bool)
      requires Valid()
      ensures b == (e in order)
    {
      b := e in m;
    }

    method Add(e: T)
      requires Valid()
      modifies this
      ensures Valid() && order == if e in old(order) then old(order) else old(order) + [e]
    {
      if e in m { return; }
      m := m + {e};
      order := order + [e];
    }

    method Delete(e: T)
      requires Valid()
      modifies this
      ensures Valid() && e !in order
      ensures e !in old(order) ==> order == old(order)
      ensures forall i :: 0 <= i < |old(order)| && old(order)[i] == e ==> order == Without(old(order), i)
    {
      if e !in m { return; }
      m := m - {e};
      var i := Position(order, e);
      WithoutKeeps(order, i);
      order := Without(order, i);
    }
  }

  // ---------------------------------------------------------------- Stack

  function Pushed<T>(xs: seq<T>, e: T): seq<T> { xs + [e] }

  /** What Pop answers, and the stack it leaves; None stands for the `empty stack` error. */
  function Popped<T>(xs: seq<T>): (Option<T>, seq<T>) {
    if xs == [] then (None, xs) else (Some(xs[|xs| - 1]), xs[..|xs| - 1])
  }

  function PushMany<T>(xs: seq<T>, es: seq<T>): seq<T>
    decreases |es|
  {
    if es == [] then xs else PushMany(Pushed(xs, es[0]), es[1..])
  }

  function PopMany<T>(xs: seq<T>, n: nat): (seq<Option<T>>, seq<T>) {
    if n == 0 then ([], xs) else
    var (r, rest) := Popped(xs);
    var (rs, left) := PopMany(rest, n - 1);
    ([r] + rs, left)
  }

  function Backwards<T>(es: seq<T>): seq<Option<T>> {
    if es == [] then [] else [Some(es[|es| - 1])] + Backwards(es[..|es| - 1])
  }

  /** Whatever is on the stack: elements pushed come off in reverse order, and the stack is as before. */
  lemma LastInFirstOut<T>(xs: seq<T>, es: seq<T>)
    ensures PopMany(PushMany(xs, es), |es|) == (Backwards(es), xs)
  {
    Stacked(xs, es);
    Unstacked(xs, es);
  }

  lemma {:induction false} Stacked<T>(xs: seq<T>, es: seq<T>)
    ensures PushMany(xs, es) == xs + es
    decreases |es|
  {
    if es == [] {
      assert xs + es == xs;
    } else {
      Stacked(Pushed(xs, es[0]), es[1..]);
      assert (xs + [es[0]]) + es[1..] == xs + es;
    }
  }

  lemma {:induction false} Unstacked<T>(xs: seq<T>, es: seq<T>)
    ensures PopMany(xs + es, |es|) == (Backwards(es), xs)
    decreases |es|
  {
    if es == [] {
      assert xs + es == xs;
    } else {
      var rest := es[..|es| - 1];
      Unstacked(xs, rest);
      assert (xs + es)[..|xs + es| - 1] == xs + rest;
    }
  }

  class Stack<T> {
    var xs: seq<T>

    constructor ()
      ensures xs == []
    {
      xs := [];
    }

    method Push(e: T)
      modifies this
      ensures xs == Pushed(old(xs), e)
    {
      xs := xs + [e];
    }

    method Pop() returns (r: Option<T>)
      modifies this
      ensures (r, xs) == Popped(old(xs))
    {
      var n := |xs|;
      if n == 0 { return None; }
      r := Some(xs[n - 1]);
      xs := xs[..n - 1];
    }

    method Peek() returns (r: Option<T>)
      ensures r == if xs == [] then None else Some(xs[|xs| - 1])
    {
      var n := |xs|;
      r := if n == 0 then None else Some(xs[n - 1]);
    }
  }

  // ---------------------------------------------------------------- List

  function Clamp(i: int, n: nat): nat { if i < 0 then 0 else if i > n then n else i }

  function Inserted<T>(xs: seq<T>, i: int, e: T): seq<T> { xs[..Clamp(i, |xs|)] + [e] + xs[Clamp(i, |xs|)..] }

  function RemovedAt<T>(xs: seq<T>, i: int): seq<T> { if 0 <= i < |xs| then Without(xs, i) else xs }

  class List<T> {
    var xs: seq<T>

    constructor Of(elems: seq<T>)
      ensures xs == elems
    {
      xs := elems;
    }

    method Get(i: int) returns (r: Option<T>)
      ensures r == if 0 <= i < |xs| then Some(xs[i]) else None
    {
      if i < 0 || i >= |xs| { return None; }
      r := Some(xs[i]);
    }

    /** Out of range, `l[i] = e` panics. */
    method Set(i: int, e: T)
      requires 0 <= i < |xs|
      modifies this
      ensures xs == old(xs)[i := e]
    {
      xs := xs[i := e];
    }

    /** Grows by one, shifts the tail up, and puts e into the gap; i is clamped. */
    method Insert(i: int, e: T)
      modifies this
      ensures xs == Inserted(old(xs), i, e)
    {
      var j := if i < 0 then 0 else i;
      if j > |xs| { j := |xs|; }
      xs := xs + [e];
      xs := xs[..j + 1] + xs[j..|xs| - 1];
      xs := xs[j := e];
    }

    method RemoveAt(i: int) returns (r: Option<T>)
      modifies this
      ensures xs == RemovedAt(old(xs), i) && r == if 0 <= i < |old(xs)| then Some(old(xs)[i]) else None
    {
      if i < 0 || i >= |xs| { return None; }
      r := Some(xs[i]);
      xs := Without(xs, i);
    }

    method Push(e: T)
      modifies this
      ensures xs == old(xs) + [e]
    {
      xs := xs + [e];
    }
  }

  /** RemoveAt undoes Insert exactly at the indices that Insert does not clamp. */
  lemma RemoveUndoesInsert<T>(xs: seq<T>, i: int, e: T)
    ensures RemovedAt(Inserted(xs, i, e), i) == xs <==> 0 <= i <= |xs|
    ensures 0 <= i <= |xs| ==> Inserted(xs, i, e)[i] == e
  {
    var more := Inserted(xs, i, e);
    assert |more| == |xs| + 1;
    if 0 <= i <= |xs| {
      assert more[..i] == xs[..i] && more[i + 1..] == xs[i..];
      assert xs == xs[..i] + xs[i..];
    }
  }

  /** Where an element goes: before the first for a negative index, behind the last for one past the end,
      and to its index otherwise; the others keep their order. */
  lemma InsertedWhere<T>(xs: seq<T>, i: int, e: T)
    ensures i < 0 ==> Inserted(xs, i, e) == [e] + xs
    ensures i > |xs| ==> Inserted(xs, i, e) == xs + [e]
    ensures 0 <= i <= |xs| ==> Inserted(xs, i, e) == xs[..i] + [e] + xs[i..]
    ensures !(0 <= i < |xs|) ==> RemovedAt(xs, i) == xs
  {
    assert xs[..0] + [e] + xs[0..] == [e] + xs;
    assert xs[..|xs|] + [e] + xs[|xs|..] == xs + [e];
  }
}
