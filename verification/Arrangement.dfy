/** Listing a finite set in increasing order of a strict total order. */
module Arrangement {
  import opened Prelude

  ghost predicate StrictTotal<T(!new)>(s: set<T>, lt: (T, T) -> bool) {
    && (forall x, y :: x in s && y in s && lt(x, y) ==> !lt(y, x))
    && (forall x, y :: x in s && y in s && x != y ==> lt(x, y) || lt(y, x))
    && (forall x, y, z :: x in s && y in s && z in s && lt(x, y) && lt(y, z) ==> lt(x, z))
  }

  ghost predicate Increasing<T(!new)>(s: seq<T>, lt: (T, T) -> bool) {
    forall i, j :: 0 <= i < j < |s| ==> lt(s[i], s[j])
  }

  predicate IsLeast<T(==)>(m: T, s: set<T>, lt: (T, T) -> bool) {
    m in s && forall x :: x in s ==> x == m || lt(m, x)
  }

  lemma {:induction false} LeastExists<T(!new)>(s: set<T>, lt: (T, T) -> bool)
    requires StrictTotal(s, lt) && s != {}
    ensures exists m :: IsLeast(m, s, lt)
  {
    var x :| x in s;
    var rest := s - {x};
    if rest == {} {
      assert s == {x};
      assert IsLeast(x, s, lt);
    } else {
      LeastExists(rest, lt);
      var m :| IsLeast(m, rest, lt);
      if lt(m, x) {
        assert IsLeast(m, s, lt);
      } else {
        assert IsLeast(x, s, lt);
      }
    }
  }

  /** The set in increasing order. */
  function Arrange<T(!new, ==)>(s: set<T>, lt: (T, T) -> bool): seq<T>
    requires StrictTotal(s, lt)
  {
    if s == {} then []
    else
      LeastExists(s, lt);
      var m :| IsLeast(m, s, lt);
      [m] + Arrange(s - {m}, lt)
  }

  lemma {:induction false} ArrangeFacts<T(!new)>(s: set<T>, lt: (T, T) -> bool)
    requires StrictTotal(s, lt)
    ensures Increasing(Arrange(s, lt), lt) && Elements(Arrange(s, lt)) == s && |Arrange(s, lt)| == |s|
  {
    if s != {} {
      LeastExists(s, lt);
      var m :| IsLeast(m, s, lt) && Arrange(s, lt) == [m] + Arrange(s - {m}, lt);
      ArrangeFacts(s - {m}, lt);
      PrependLeast(m, Arrange(s - {m}, lt), s, lt);
    }
  }

  lemma PrependLeast<T(!new)>(m: T, rest: seq<T>, s: set<T>, lt: (T, T) -> bool)
    requires StrictTotal(s, lt) && IsLeast(m, s, lt)
    requires Increasing(rest, lt) && Elements(rest) == s - {m} && |rest| == |s| - 1
    ensures Increasing([m] + rest, lt) && Elements([m] + rest) == s
  {
    var r := [m] + rest;
    assert Elements(r) == {m} + Elements(rest);
    forall i, j | 0 <= i < j < |r|
      ensures lt(r[i], r[j])
    {
      assert r[j] == rest[j - 1] && rest[j - 1] in Elements(rest);
      if i > 0 {
        assert r[i] == rest[i - 1];
      }
    }
  }

  lemma IncreasingIsDistinct<T(!new)>(r: seq<T>, s: set<T>, lt: (T, T) -> bool)
    requires StrictTotal(s, lt) && Increasing(r, lt) && Elements(r) <= s
    ensures Distinct(r)
  {
    forall i, j | 0 <= i < j < |r|
      ensures r[i] != r[j]
    {
      assert r[i] in Elements(r);
      assert lt(r[i], r[j]);
    }
  }

  lemma EmptyElements<T>(s: seq<T>)
    ensures Elements(s) == {} <==> s == []
  {
    if s != [] {
      assert s[0] in Elements(s);
    }
  }

  /** Two increasing listings of one set are equal. */
  lemma {:induction false} ArrangementUnique<T(!new)>(a: seq<T>, b: seq<T>, s: set<T>, lt: (T, T) -> bool)
    requires StrictTotal(s, lt)
    requires Increasing(a, lt) && Elements(a) == s
    requires Increasing(b, lt) && Elements(b) == s
    ensures a == b
  {
    EmptyElements(a);
    EmptyElements(b);
    if a != [] {
      assert a[0] in Elements(a) && a[0] in Elements(b);
      assert b[0] in Elements(b) && b[0] in Elements(a);
      assert a[0] == b[0];
      RestIsSet(a, s, lt);
      RestIsSet(b, s, lt);
      ArrangementUnique(a[1..], b[1..], s - {a[0]}, lt);
      assert a == [a[0]] + a[1..] && b == [b[0]] + b[1..];
    }
  }

  lemma RestIsSet<T(!new)>(a: seq<T>, s: set<T>, lt: (T, T) -> bool)
    requires StrictTotal(s, lt) && a != [] && Increasing(a, lt) && Elements(a) == s
    ensures Increasing(a[1..], lt) && Elements(a[1..]) == s - {a[0]}
  {
    IncreasingIsDistinct(a, s, lt);
    forall x | x in s - {a[0]}
      ensures x in Elements(a[1..])
    {
      var i :| 0 <= i < |a| && a[i] == x;
      assert a[1..][i - 1] == x;
    }
  }

  /** Orders that agree on the set arrange it alike. */
  lemma {:induction false} ArrangeAgrees<T(!new)>(s: set<T>, lt: (T, T) -> bool, other: (T, T) -> bool)
    requires StrictTotal(s, lt)
    requires forall x, y :: x in s && y in s ==> lt(x, y) == other(x, y)
    ensures StrictTotal(s, other) && Arrange(s, lt) == Arrange(s, other)
  {
    var a, b := Arrange(s, lt), Arrange(s, other);
    ArrangeFacts(s, lt);
    ArrangeFacts(s, other);
    forall i, j | 0 <= i < j < |b|
      ensures lt(b[i], b[j])
    {
      assert b[i] in Elements(b) && b[j] in Elements(b);
    }
    ArrangementUnique(a, b, s, lt);
  }

  function Min(a: nat, b: nat): nat {
    if a <= b then a else b
  }

  /** LIMIT and OFFSET: the rows after the first `offset`, at most `limit` of them. */
  function Window<T>(s: seq<T>, offset: nat, limit: nat): seq<T> {
    var lo := Min(offset, |s|);
    s[lo..Min(lo + limit, |s|)]
  }
}
