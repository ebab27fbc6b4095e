/** Filling a map by a list of writes: the last write to a key is the one that stays. */
module LastWriter {

  function Write<K, V>(m: map<K, V>, writes: seq<(K, V)>): map<K, V>
    decreases |writes|
  {
    if writes == [] then m else Write(m[writes[0].0 := writes[0].1], writes[1..])
  }

  ghost predicate IsLast<K, V>(writes: seq<(K, V)>, i: nat, key: K) {
    i < |writes| && writes[i].0 == key && forall j :: i < j < |writes| ==> writes[j].0 != key
  }

  lemma {:induction false} WriteAppend<K, V>(m: map<K, V>, a: seq<(K, V)>, b: seq<(K, V)>)
    ensures Write(m, a + b) == Write(Write(m, a), b)
    decreases |a|
  {
    if a == [] {
      assert a + b == b;
    } else {
      assert (a + b)[1..] == a[1..] + b;
      WriteAppend(m[a[0].0 := a[0].1], a[1..], b);
    }
  }

  lemma {:induction false} LastWriteStays<K, V>(m: map<K, V>, writes: seq<(K, V)>, key: K)
    ensures key in Write(m, writes) <==> key in m || exists i: nat :: IsLast(writes, i, key)
    ensures forall i: nat :: IsLast(writes, i, key) ==> key in Write(m, writes) && Write(m, writes)[key] == writes[i].1
    ensures key in m && (forall i: nat :: !IsLast(writes, i, key)) ==> Write(m, writes)[key] == m[key]
    decreases |writes|
  {
    if writes != [] {
      var n := |writes| - 1;
      var last := writes[n];
      assert writes == writes[..n] + [last];
      WriteAppend(m, writes[..n], [last]);
      LastWriteStays(m, writes[..n], key);
      if last.0 == key {
        assert IsLast(writes, n, key);
      } else {
        assert forall i: nat :: IsLast(writes, i, key) <==> IsLast(writes[..n], i, key);
      }
    }
  }

  /** Whoever writes a key at all, someone writes it last. */
  lemma {:induction false} SomeoneIsLast<K, V>(writes: seq<(K, V)>, k: nat) returns (i: nat)
    requires k < |writes|
    ensures k <= i && IsLast(writes, i, writes[k].0)
    decreases |writes| - k
  {
    if j :| k < j < |writes| && writes[j].0 == writes[k].0 {
      i := SomeoneIsLast(writes, j);
    } else {
      i := k;
    }
  }

  lemma {:induction false} WriteOne<K, V>(m: map<K, V>, write: (K, V))
    ensures Write(m, [write]) == m[write.0 := write.1] && Write(m, []) == m
  {
    assert [write][1..] == [];
  }

  /** A key is written when some write has it. */
  lemma {:induction false} WrittenExactly<K, V>(writes: seq<(K, V)>, key: K)
    ensures key in Write(map[], writes) <==> exists k :: 0 <= k < |writes| && writes[k].0 == key
    ensures key in Write(map[], writes) ==> (key, Write(map[], writes)[key]) in writes
  {
    LastWriteStays(map[], writes, key);
    forall k | 0 <= k < |writes| && writes[k].0 == key
      ensures key in Write(map[], writes)
    {
      var i := SomeoneIsLast(writes, k);
    }
  }
}
