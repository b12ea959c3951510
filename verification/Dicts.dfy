/** Python's insertion-ordered `dict`: what it maps, and the order its items are visited in. */
module Dicts {

  datatype Dict<K(==), V> = Dict(order: seq<K>, at: map<K, V>) {

    ghost predicate Valid() {
      NoDuplicates(order) && (set k | k in order) == at.Keys
    }

    // `d[k] = v`: a stored key keeps its place, a new one goes last.
    function Put(k: K, v: V): Dict<K, V> {
      Dict(if k in at then order else order + [k], at[k := v])
    }
  }

  ghost predicate NoDuplicates<T>(s: seq<T>) {
    forall i, j | 0 <= i < j < |s| :: s[i] != s[j]
  }

  function Empty<K(==), V>(): Dict<K, V> {
    Dict([], map[])
  }

  lemma {:induction false} SubsetIsNoLarger<T>(a: set<T>, b: set<T>)
    requires a <= b
    ensures |a| <= |b|
  {
    if a == {} {
    } else {
      var x :| x in a;
      SubsetIsNoLarger(a - {x}, b - {x});
    }
  }

  lemma {:induction false} SequenceSize<T>(s: seq<T>)
    requires NoDuplicates(s)
    ensures |set x | x in s| == |s|
  {
    if s == [] {
    } else {
      var front := s[..|s| - 1];
      SequenceSize(front);
      assert (set x | x in s) == (set x | x in front) + {s[|s| - 1]};
    }
  }

  lemma OrderSize<K, V>(d: Dict<K, V>)
    requires d.Valid()
    ensures |d.order| == |d.at|
  {
    SequenceSize(d.order);
  }
}
