/** Dotted field paths, and why no two places in a document share one. */
module Paths {
  import opened Decimals

  datatype Segment = Key(name: string) | Index(i: nat)

  type Address = seq<Segment>

  /** The path of a child, as the walker writes it. */
  function ChildPath(path: string, step: Segment): string {
    match step
    case Key(k) => if path == "" then k else path + "." + k
    case Index(i) => path + "[" + Decimal(i) + "]"
  }

  function Render(a: Address): string {
    if a == [] then "" else ChildPath(Render(a[..|a| - 1]), a[|a| - 1])
  }

  /** The key reads like a key followed by an index. */
  ghost predicate IndexLike(k: string) {
    exists q, i :: k == Indexed(q, i)
  }

  function Indexed(q: string, i: nat): string {
    q + "[" + Decimal(i) + "]"
  }

  /** Keys that keep paths readable back: not empty, without a dot, and not ending in an index. */
  ghost predicate SafeKey(k: string) {
    k != "" && '.' !in k && !IndexLike(k)
  }

  ghost predicate SafeSegment(s: Segment) {
    s.Key? ==> SafeKey(s.name)
  }

  ghost predicate SafeAddress(a: Address) {
    forall s :: s in a ==> SafeSegment(s)
  }

  /** The shorter of two prefixes leaves the other's separator to its right. */
  lemma ShorterSeesSeparator(a: string, b: string, c: char, x: string, y: string)
    requires a + [c] + x == b + [c] + y
    ensures |a| < |b| ==> c in x
  {
    if |a| < |b| {
      assert (b + [c] + y)[|b|] == c;
      assert (a + [c] + x)[|b|] == x[|b| - |a| - 1];
    }
  }

  /** A separator that does not occur to its right can be found again. */
  lemma SplitLast(a: string, b: string, c: char, x: string, y: string)
    requires a + [c] + x == b + [c] + y && c !in x && c !in y
    ensures a == b && x == y
  {
    ShorterSeesSeparator(a, b, c, x, y);
    ShorterSeesSeparator(b, a, c, y, x);
    var s := a + [c] + x;
    assert a == s[..|a|] && b == s[..|a|];
    assert x == s[|a| + 1..] && y == s[|a| + 1..];
  }

  lemma {:induction false} RenderEmpty(a: Address)
    requires SafeAddress(a)
    ensures Render(a) == "" <==> a == []
  {
    if a != [] {
      assert SafeSegment(a[|a| - 1]);
    }
  }

  lemma DotFallsInto(p: string, k: string, q: string, x: string)
    requires p + "." + k == q + x && |x| > |k|
    ensures '.' in x
  {
    assert (p + "." + k)[|p|] == '.';
    assert (q + x)[|p|] == x[|p| - |q|];
  }

  /** What follows the last dot, if what is there has none. */
  lemma SuffixWithoutDot(p: string, k: string, q: string, x: string)
    requires p + "." + k == q + x && '.' !in x
    ensures |x| <= |k| && k == k[..|k| - |x|] + x
  {
    if |x| > |k| {
      DotFallsInto(p, k, q, x);
    }
    var s := q + x;
    assert s[|s| - |x|..] == x && s[|s| - |k|..] == k;
    assert k[|k| - |x|..] == s[|s| - |x|..];
  }

  lemma {:induction false} NoDotInIndex(i: nat)
    ensures '.' !in "[" + Decimal(i) + "]"
  {
    DecimalReadsBack(i);
  }

  /** A key whose path is also the path of an index reads like one itself. */
  lemma KeyPathIsNoIndexPath(p: string, k: string, q: string, i: nat)
    requires ChildPath(p, Key(k)) == ChildPath(q, Index(i))
    ensures IndexLike(k)
  {
    var x := "[" + Decimal(i) + "]";
    assert ChildPath(q, Index(i)) == q + x == Indexed(q, i);
    if p == "" {
      assert k == Indexed(q, i);
    } else {
      NoDotInIndex(i);
      SuffixWithoutDot(p, k, q, x);
      assert k == Indexed(k[..|k| - |x|], i);
    }
  }

  lemma IndexPathInjective(p: string, i: nat, q: string, j: nat)
    requires ChildPath(p, Index(i)) == ChildPath(q, Index(j))
    ensures p == q && i == j
  {
    var s, t := ChildPath(p, Index(i)), ChildPath(q, Index(j));
    DecimalReadsBack(i);
    DecimalReadsBack(j);
    assert s[..|s| - 1] == p + ['['] + Decimal(i) && t[..|t| - 1] == q + ['['] + Decimal(j);
    SplitLast(p, q, '[', Decimal(i), Decimal(j));
    DecimalInjective(i, j);
  }

  lemma DotOnlyAfterPath(path: string, k: string)
    requires SafeKey(k)
    ensures '.' in ChildPath(path, Key(k)) <==> path != ""
  {
    if path != "" {
      assert (path + "." + k)[|path|] == '.';
    }
  }

  lemma KeyPathInjective(p: string, k: string, q: string, l: string)
    requires SafeKey(k) && SafeKey(l) && ChildPath(p, Key(k)) == ChildPath(q, Key(l))
    ensures p == q && k == l
  {
    DotOnlyAfterPath(p, k);
    DotOnlyAfterPath(q, l);
    if p != "" {
      assert p + "." + k == p + ['.'] + k && q + "." + l == q + ['.'] + l;
      SplitLast(p, q, '.', k, l);
    }
  }

  lemma LastSegmentAgrees(p: string, s: Segment, q: string, t: Segment)
    requires SafeSegment(s) && SafeSegment(t) && ChildPath(p, s) == ChildPath(q, t)
    ensures p == q && s == t
  {
    match (s, t)
    case (Key(k), Key(l)) => KeyPathInjective(p, k, q, l);
    case (Index(i), Index(j)) => IndexPathInjective(p, i, q, j);
    case (Key(k), Index(j)) => KeyPathIsNoIndexPath(p, k, q, j);
    case (Index(i), Key(l)) => KeyPathIsNoIndexPath(q, l, p, i);
  }

  /** Main result: among addresses with safe keys, a path names one place. */
  lemma {:induction false} RenderInjective(a: Address, b: Address)
    requires SafeAddress(a) && SafeAddress(b) && Render(a) == Render(b)
    ensures a == b
    decreases |a|
  {
    RenderEmpty(a);
    RenderEmpty(b);
    if a != [] {
      var m, n := |a| - 1, |b| - 1;
      assert SafeSegment(a[m]) && SafeSegment(b[n]);
      LastSegmentAgrees(Render(a[..m]), a[m], Render(b[..n]), b[n]);
      RenderInjective(a[..m], b[..n]);
      assert a == a[..m] + [a[m]] && b == b[..n] + [b[n]];
    }
  }

  lemma RenderTwo(s: Segment, t: Segment)
    ensures Render([s, t]) == ChildPath(ChildPath("", s), t)
  {
    assert [s, t][..1] == [s] && [s][..0] == [];
    assert Render([s]) == ChildPath("", s);
  }

  lemma RenderThree(s: Segment, t: Segment, u: Segment)
    ensures Render([s, t, u]) == ChildPath(ChildPath(ChildPath("", s), t), u)
  {
    assert [s, t, u][..2] == [s, t];
    RenderTwo(s, t);
  }

  lemma DottedKeyCollides(p: string, x: string, y: string)
    requires p != ""
    ensures Render([Key(p), Key(x + "." + y)]) == Render([Key(p), Key(x), Key(y)])
  {
    RenderTwo(Key(p), Key(x + "." + y));
    RenderThree(Key(p), Key(x), Key(y));
    assert p + "." + (x + "." + y) == p + "." + x + "." + y;
  }

  lemma IndexLikeKeyCollides(p: string, q: string, i: nat)
    requires p != ""
    ensures Render([Key(p), Key(Indexed(q, i))]) == Render([Key(p), Key(q), Index(i)])
  {
    RenderTwo(Key(p), Key(Indexed(q, i)));
    RenderThree(Key(p), Key(q), Index(i));
    assert p + "." + Indexed(q, i) == Indexed(p + "." + q, i);
  }

  /** Nothing less would do: every key that is not safe occurs in an address that renders
      like another one. */
  lemma UnsafeKeyCollides(k: string) returns (a: Address, b: Address)
    requires !SafeKey(k)
    ensures Key(k) in a && a != b && Render(a) == Render(b)
  {
    if k == "" {
      a, b := [Key(k)], [];
      assert a[..0] == [];
    } else if '.' in k {
      var i :| 0 <= i < |k| && k[i] == '.';
      assert k == k[..i] + "." + k[i + 1..];
      a, b := [Key("x"), Key(k)], [Key("x"), Key(k[..i]), Key(k[i + 1..])];
      DottedKeyCollides("x", k[..i], k[i + 1..]);
    } else {
      var q, i :| k == Indexed(q, i);
      a, b := [Key("x"), Key(k)], [Key("x"), Key(q), Index(i)];
      IndexLikeKeyCollides("x", q, i);
    }
  }
}
