/** Maps used as counters, as in m[k]++. */
module Counting {
  import opened Sequences

  function CountOf<K>(m: map<K, nat>, k: K): nat { if k in m then m[k] else 0 }

  function Increment(m: map<string, nat>, k: string): map<string, nat> { m[k := CountOf(m, k) + 1] }

  ghost function Sum(m: map<string, nat>): nat {
    if m == map[] then 0
    else
      var k :| k in m;
      m[k] + Sum(m - {k})
  }

  // Any key can be counted first.
  lemma {:induction false} SumSplits(m: map<string, nat>, k: string)
    requires k in m
    ensures Sum(m) == m[k] + Sum(m - {k})
    decreases |m|
  {
    var j :| j in m && Sum(m) == m[j] + Sum(m - {j});
    if j != k {
      SumSplits(m - {j}, k);
      SumSplits(m - {k}, j);
      assert m - {j} - {k} == m - {k} - {j};
    }
  }

  lemma IncrementAddsOne(m: map<string, nat>, k: string)
    ensures Sum(Increment(m, k)) == Sum(m) + 1
  {
    var n := Increment(m, k);
    SumSplits(n, k);
    assert n - {k} == m - {k};
    if k in m {
      SumSplits(m, k);
    } else {
      assert m - {k} == m;
    }
  }

  // The sum read off in any order.
  function SumListed(keys: seq<string>, m: map<string, nat>): nat
    requires forall k :: k in keys ==> k in m
  {
    if keys == [] then 0 else m[keys[0]] + SumListed(keys[1..], m)
  }

  lemma {:induction false} SumListedIsSum(keys: seq<string>, m: map<string, nat>)
    requires forall i, j :: 0 <= i < j < |keys| ==> keys[i] != keys[j]
    requires forall k :: k in keys <==> k in m
    ensures SumListed(keys, m) == Sum(m)
  {
    if keys == [] {
      assert m == map[] by { assert forall k :: k !in m; }
    } else {
      var k := keys[0];
      SumSplits(m, k);
      assert keys == [k] + keys[1..];
      SumListedAgrees(keys[1..], m, m - {k});
      SumListedIsSum(keys[1..], m - {k});
    }
  }

  lemma {:induction false} SumListedAgrees(keys: seq<string>, m: map<string, nat>, n: map<string, nat>)
    requires forall k :: k in keys ==> k in m && k in n && m[k] == n[k]
    ensures SumListed(keys, m) == SumListed(keys, n)
  {
    if keys != [] {
      SumListedAgrees(keys[1..], m, n);
    }
  }

  // The keys of a counter in the order of a Go map iteration, which is any order.
  method KeyList<V>(m: map<string, V>) returns (keys: seq<string>)
    ensures Distinct(keys) && (forall k :: k in keys <==> k in m.Keys)
  {
    keys := [];
    var left := m.Keys;
    while left != {}
      invariant left <= m.Keys
      invariant Distinct(keys) && (forall k :: k in keys <==> k in m.Keys - left)
      decreases left
    {
      var k :| k in left;
      assert k !in keys;
      left := left - {k};
      keys := keys + [k];
    }
  }
}
