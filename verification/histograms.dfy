/** Counting occurrences in an object used as a dictionary:
    `acc[key(x)] = (acc[key(x)] || 0) + 1` for every `x` of a list, in order. */
module Histograms {
  import opened Folds

  /** Number of elements of `s` whose key is `k`. */
  function Occurrences<T, K(==)>(s: seq<T>, key: T -> K, k: K): nat
  {
    |Filter(s, x => key(x) == k)|
  }

  /** The keys met in `s`. */
  function KeysOf<T, K>(s: seq<T>, key: T -> K): set<K>
  {
    set i | 0 <= i < |s| :: key(s[i])
  }

  /** One step of the tally: a missing entry reads as 0 (`|| 0`) and is
      incremented. */
  function Bump<K>(acc: map<K, nat>, k: K): (r: map<K, nat>)
    ensures r.Keys == acc.Keys + {k}
    ensures r[k] == (if k in acc then acc[k] else 0) + 1
    ensures forall j :: j in acc && j != k ==> r[j] == acc[j]
  {
    acc[k := (if k in acc then acc[k] else 0) + 1]
  }

  /** The `forEach` loop over `s`, starting from the dictionary `acc`. */
  function Tally<T, K(==)>(s: seq<T>, key: T -> K, acc: map<K, nat>): (r: map<K, nat>)
    ensures r.Keys == acc.Keys + KeysOf(s, key)
    ensures forall k :: k in r ==>
              r[k] == (if k in acc then acc[k] else 0) + Occurrences(s, key, k)
  {
    if |s| == 0 then acc
    else
      KeysOfCons(s, key);
      OccurrencesCons(s, key);
      Tally(s[1..], key, Bump(acc, key(s[0])))
  }

  lemma KeysOfCons<T, K>(s: seq<T>, key: T -> K)
    requires |s| > 0
    ensures KeysOf(s, key) == {key(s[0])} + KeysOf(s[1..], key)
  {
  }

  lemma OccurrencesCons<T, K>(s: seq<T>, key: T -> K)
    requires |s| > 0
    ensures forall k :: Occurrences(s, key, k) ==
              (if key(s[0]) == k then 1 else 0) + Occurrences(s[1..], key, k)
  {
  }

  /** The histogram of `s`: an empty dictionary filled by one pass over `s`. */
  function Histogram<T, K(==)>(s: seq<T>, key: T -> K): (r: map<K, nat>)
    ensures r.Keys == KeysOf(s, key)
    ensures forall k :: k in r ==> r[k] == Occurrences(s, key, k) && r[k] > 0
  {
    var r := Tally(s, key, map[]);
    assert forall k :: k in r ==> r[k] > 0 by {
      forall k | k in r
        ensures r[k] > 0
      {
        var i :| 0 <= i < |s| && key(s[i]) == k;
        FilterMembers(s, x => key(x) == k);
        assert s[i] in Filter(s, x => key(x) == k);
      }
    }
    r
  }

  /** Sum of the counts of a dictionary. */
  ghost function MapTotal<K>(m: map<K, nat>): nat
  {
    SumOver(m, m.Keys)
  }

  /** Sum of the counts stored under the keys `ks`. */
  ghost function SumOver<K>(m: map<K, nat>, ks: set<K>): nat
    requires ks <= m.Keys
  {
    if ks == {} then 0
    else
      var k :| k in ks;
      m[k] + SumOver(m, ks - {k})
  }

  /** The sum does not depend on which key is taken out first. */
  lemma {:induction false} SumOverRemove<K>(m: map<K, nat>, ks: set<K>, k: K)
    requires ks <= m.Keys && k in ks
    ensures SumOver(m, ks) == m[k] + SumOver(m, ks - {k})
    decreases ks
  {
    var j :| j in ks && SumOver(m, ks) == m[j] + SumOver(m, ks - {j});
    if j != k {
      SumOverRemove(m, ks - {j}, k);
      SumOverRemove(m, ks - {k}, j);
      assert ks - {j} - {k} == ks - {k} - {j};
    }
  }

  /** Two dictionaries that agree on `ks` have the same sum over `ks`. */
  lemma {:induction false} SumOverAgree<K>(m: map<K, nat>, m': map<K, nat>, ks: set<K>)
    requires ks <= m.Keys && ks <= m'.Keys
    requires forall k :: k in ks ==> m[k] == m'[k]
    ensures SumOver(m, ks) == SumOver(m', ks)
    decreases ks
  {
    if ks != {} {
      var j :| j in ks && SumOver(m, ks) == m[j] + SumOver(m, ks - {j});
      SumOverRemove(m', ks, j);
      SumOverAgree(m, m', ks - {j});
    }
  }

  lemma MapTotalBump<K>(m: map<K, nat>, k: K)
    ensures MapTotal(Bump(m, k)) == MapTotal(m) + 1
  {
    var b := Bump(m, k);
    SumOverRemove(b, b.Keys, k);
    assert b.Keys - {k} == m.Keys - {k};
    SumOverAgree(b, m, m.Keys - {k});
    if k in m {
      SumOverRemove(m, m.Keys, k);
    } else {
      assert m.Keys - {k} == m.Keys;
    }
  }

  lemma {:induction false} MapTotalTally<T, K>(s: seq<T>, key: T -> K, acc: map<K, nat>)
    ensures MapTotal(Tally(s, key, acc)) == MapTotal(acc) + |s|
  {
    if |s| > 0 {
      MapTotalBump(acc, key(s[0]));
      MapTotalTally(s[1..], key, Bump(acc, key(s[0])));
    }
  }

  /** The counts of a histogram add up to the length of the list. */
  lemma HistogramTotal<T, K>(s: seq<T>, key: T -> K)
    ensures MapTotal(Histogram(s, key)) == |s|
  {
    MapTotalTally(s, key, map[]);
    var empty: map<K, nat> := map[];
    assert empty.Keys == {};
    assert MapTotal(empty) == 0;
  }

  /** A histogram depends only on the multiset of its input. */
  lemma HistogramPermutation<T, K>(a: seq<T>, b: seq<T>, key: T -> K)
    requires multiset(a) == multiset(b)
    ensures Histogram(a, key) == Histogram(b, key)
  {
    var ha, hb := Histogram(a, key), Histogram(b, key);
    forall k | k in KeysOf(a, key)
      ensures k in KeysOf(b, key)
    {
      var i :| 0 <= i < |a| && key(a[i]) == k;
      assert a[i] in multiset(b);
      var j :| 0 <= j < |b| && b[j] == a[i];
    }
    forall k | k in KeysOf(b, key)
      ensures k in KeysOf(a, key)
    {
      var i :| 0 <= i < |b| && key(b[i]) == k;
      assert b[i] in multiset(a);
      var j :| 0 <= j < |a| && a[j] == b[i];
    }
    assert ha.Keys == hb.Keys;
    forall k | k in ha
      ensures ha[k] == hb[k]
    {
      FilterPermutation(a, b, x => key(x) == k);
    }
  }
}
