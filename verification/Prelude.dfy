/** Small vocabulary shared by every model: optional values, outcomes, insertion-ordered
    maps, and the mutable containers the modelled code passes by mutable reference. */
module Prelude {

  datatype Option<+T> = None | Some(value: T)

  datatype Result<+T, +E> = Ok(value: T) | Err(error: E)

  /** No element occurs twice. */
  ghost predicate Distinct<T>(s: seq<T>) {
    forall i, j :: 0 <= i < j < |s| ==> s[i] != s[j]
  }

  ghost function Elements<T>(s: seq<T>): set<T> {
    set x | x in s
  }

  lemma DistinctAppend<T>(s: seq<T>, x: T)
    requires Distinct(s) && x !in s
    ensures Distinct(s + [x])
  {
  }

  /** Distinct sequences over a finite set are no longer than the set. */
  lemma {:induction false} DistinctLength<T>(s: seq<T>, bound: set<T>)
    requires Distinct(s) && Elements(s) <= bound
    ensures |s| <= |bound|
  {
    if s != [] {
      var last := s[|s| - 1];
      assert last in Elements(s);
      forall x | x in Elements(s[..|s| - 1])
        ensures x in bound - {last}
      {
        assert x in Elements(s);
      }
      DistinctLength(s[..|s| - 1], bound - {last});
    }
  }

  /** A map that remembers the order its keys were first inserted in. */
  datatype RawIndexMap<V> = RawIndexMap(keys: seq<string>, at: map<string, V>) {
    ghost predicate Valid() {
      Distinct(keys) && Elements(keys) == at.Keys
    }
  }

  type IndexMap<V> = m: RawIndexMap<V> | m.Valid() witness RawIndexMap([], map[])

  /** A mutable set handed around by reference. */
  class HashSet<T(==)> {
    var elems: set<T>

    constructor ()
      ensures elems == {}
    {
      elems := {};
    }

    predicate Contains(x: T)
      reads this
    {
      x in elems
    }

    method Insert(x: T)
      modifies this
      ensures elems == old(elems) + {x}
    {
      elems := elems + {x};
    }

    method Remove(x: T)
      modifies this
      ensures elems == old(elems) - {x}
    {
      elems := elems - {x};
    }
  }

  /** A growable list handed around by reference. */
  class Vec<T> {
    var items: seq<T>

    constructor ()
      ensures items == []
    {
      items := [];
    }

    method Push(x: T)
      modifies this
      ensures items == old(items) + [x]
    {
      items := items + [x];
    }
  }
}
