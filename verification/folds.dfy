/** The reductions the services apply to lists of records: `filter`,
    `filter(...).length`, `reduce` with `+`, `Math.max`/`Math.min` over a
    mapped list and a sum divided by a length, together with the facts that
    make them independent of the order of the list. */
module Folds {
  import opened Wrappers

  /** `s.filter(p)`: the elements satisfying `p`, in order. */
  function Filter<T>(s: seq<T>, p: T -> bool): (r: seq<T>)
    ensures |r| <= |s|
    ensures forall i :: 0 <= i < |r| ==> p(r[i])
  {
    if |s| == 0 then []
    else if p(s[0]) then [s[0]] + Filter(s[1..], p)
    else Filter(s[1..], p)
  }

  /** `s.reduce((sum, x) => sum + f(x), 0)` over integers. */
  function SumInt<T>(s: seq<T>, f: T -> int): int
  {
    if |s| == 0 then 0 else f(s[0]) + SumInt(s[1..], f)
  }

  /** `s.reduce((sum, x) => sum + f(x), 0)` over exact reals. */
  function SumReal<T>(s: seq<T>, f: T -> real): real
  {
    if |s| == 0 then 0.0 else f(s[0]) + SumReal(s[1..], f)
  }

  /** `Math.max(...s.map(f))`; None stands for the `-Infinity` of an empty list. */
  function MaxOf<T>(s: seq<T>, f: T -> int): (r: Option<int>)
    ensures r.Some? <==> |s| > 0
    ensures r.Some? ==> forall i :: 0 <= i < |s| ==> f(s[i]) <= r.value
    ensures r.Some? ==> exists i :: 0 <= i < |s| && f(s[i]) == r.value
  {
    if |s| == 0 then None
    else
      match MaxOf(s[1..], f)
      case None => Some(f(s[0]))
      case Some(m) => Some(if f(s[0]) >= m then f(s[0]) else m)
  }

  /** `Math.min(...s.map(f))`; None stands for the `+Infinity` of an empty list. */
  function MinOf<T>(s: seq<T>, f: T -> int): (r: Option<int>)
    ensures r.Some? <==> |s| > 0
    ensures r.Some? ==> forall i :: 0 <= i < |s| ==> r.value <= f(s[i])
    ensures r.Some? ==> exists i :: 0 <= i < |s| && f(s[i]) == r.value
  {
    if |s| == 0 then None
    else
      match MinOf(s[1..], f)
      case None => Some(f(s[0]))
      case Some(m) => Some(if f(s[0]) <= m then f(s[0]) else m)
  }

  /** `s.reduce((sum, x) => sum + f(x), 0) / s.length`; None stands for the
      NaN that `0 / 0` gives on an empty list. */
  function AverageOf<T>(s: seq<T>, f: T -> int): (r: Option<real>)
    ensures r.Some? <==> |s| > 0
    ensures r.Some? ==> r.value * |s| as real == SumInt(s, f) as real
  {
    if |s| == 0 then None
    else
      var q := SumInt(s, f) as real / |s| as real;
      assert q * |s| as real == SumInt(s, f) as real;
      Some(q)
  }

  // ---------------------------------------------------------------------
  // Concatenation

  lemma {:induction false} FilterAppend<T>(a: seq<T>, b: seq<T>, p: T -> bool)
    ensures Filter(a + b, p) == Filter(a, p) + Filter(b, p)
  {
    if |a| == 0 {
      assert a + b == b;
    } else {
      assert (a + b)[1..] == a[1..] + b;
      FilterAppend(a[1..], b, p);
    }
  }

  lemma {:induction false} SumIntAppend<T>(a: seq<T>, b: seq<T>, f: T -> int)
    ensures SumInt(a + b, f) == SumInt(a, f) + SumInt(b, f)
  {
    if |a| == 0 {
      assert a + b == b;
    } else {
      assert (a + b)[1..] == a[1..] + b;
      SumIntAppend(a[1..], b, f);
    }
  }

  lemma {:induction false} SumRealAppend<T>(a: seq<T>, b: seq<T>, f: T -> real)
    ensures SumReal(a + b, f) == SumReal(a, f) + SumReal(b, f)
  {
    if |a| == 0 {
      assert a + b == b;
    } else {
      assert (a + b)[1..] == a[1..] + b;
      SumRealAppend(a[1..], b, f);
    }
  }

  // ---------------------------------------------------------------------
  // Counting with filters

  /** The elements of a filtered list are those of the list that satisfy `p`. */
  lemma FilterMembers<T>(s: seq<T>, p: T -> bool)
    ensures forall x :: x in Filter(s, p) <==> x in s && p(x)
  {
  }

  /** A weaker predicate keeps at least as many elements. */
  lemma {:induction false} FilterMonotone<T>(s: seq<T>, p: T -> bool, q: T -> bool)
    requires forall i :: 0 <= i < |s| && p(s[i]) ==> q(s[i])
    ensures |Filter(s, p)| <= |Filter(s, q)|
  {
    if |s| > 0 {
      FilterMonotone(s[1..], p, q);
    }
  }

  /** Two predicates that no element satisfies together select at most
      `|s|` elements between them, and exactly `|s|` iff every element
      satisfies one of them. */
  lemma {:induction false} FilterDisjoint<T>(s: seq<T>, p: T -> bool, q: T -> bool)
    requires forall i :: 0 <= i < |s| ==> !(p(s[i]) && q(s[i]))
    ensures |Filter(s, p)| + |Filter(s, q)| <= |s|
    ensures |Filter(s, p)| + |Filter(s, q)| == |s| <==>
              forall i :: 0 <= i < |s| ==> p(s[i]) || q(s[i])
  {
    if |s| > 0 {
      FilterDisjoint(s[1..], p, q);
      if !(p(s[0]) || q(s[0])) {
        assert |Filter(s, p)| + |Filter(s, q)| < |s|;
      }
      if forall i :: 0 <= i < |s[1..]| ==> p(s[1..][i]) || q(s[1..][i]) {
        if p(s[0]) || q(s[0]) {
          forall i | 0 <= i < |s|
            ensures p(s[i]) || q(s[i])
          {
            if i > 0 {
              assert s[i] == s[1..][i - 1];
            }
          }
        }
      } else {
        var j :| 0 <= j < |s[1..]| && !(p(s[1..][j]) || q(s[1..][j]));
        assert !(p(s[j + 1]) || q(s[j + 1]));
      }
    }
  }

  // ---------------------------------------------------------------------
  // Bounds

  /** A sum of terms between `lo` and `hi` lies between `|s| * lo` and `|s| * hi`. */
  lemma {:induction false} SumIntBounds<T>(s: seq<T>, f: T -> int, lo: int, hi: int)
    requires forall i :: 0 <= i < |s| ==> lo <= f(s[i]) <= hi
    ensures |s| * lo <= SumInt(s, f) <= |s| * hi
  {
    if |s| > 0 {
      assert forall i :: 0 <= i < |s[1..]| ==> s[1..][i] == s[i + 1];
      SumIntBounds(s[1..], f, lo, hi);
    }
  }

  /** The average lies between the minimum and the maximum. */
  lemma AverageBetweenExtrema<T>(s: seq<T>, f: T -> int)
    ensures |s| > 0 ==>
              MinOf(s, f).value as real <= AverageOf(s, f).value <= MaxOf(s, f).value as real
  {
    if |s| == 0 {
      return;
    }
    var lo, hi := MinOf(s, f).value, MaxOf(s, f).value;
    SumIntBounds(s, f, lo, hi);
    DivideBounds(SumInt(s, f), |s|, lo, hi);
  }

  /** Dividing `n * lo <= sum <= n * hi` by a positive `n`, in exact reals. */
  lemma DivideBounds(sum: int, n: int, lo: int, hi: int)
    requires n > 0
    requires n * lo <= sum <= n * hi
    ensures lo as real <= sum as real / n as real <= hi as real
  {
  }

  // ---------------------------------------------------------------------
  // Independence of the order of the list

  lemma {:induction false} FilterPermutation<T>(a: seq<T>, b: seq<T>, p: T -> bool)
    requires multiset(a) == multiset(b)
    ensures multiset(Filter(a, p)) == multiset(Filter(b, p))
    ensures |Filter(a, p)| == |Filter(b, p)|
    decreases |a|
  {
    if |a| == 0 {
      assert |b| == |multiset(b)| == 0;
    } else {
      var k := PermutationSplit(a, b);
      var rest := b[..k] + b[k + 1..];
      FilterPermutation(a[1..], rest, p);
      assert b == b[..k] + ([b[k]] + b[k + 1..]);
      FilterAppend(b[..k], [b[k]] + b[k + 1..], p);
      FilterAppend([b[k]], b[k + 1..], p);
      FilterAppend(b[..k], b[k + 1..], p);
      assert [b[k]][1..] == [];
    }
    assert |multiset(Filter(a, p))| == |Filter(a, p)|;
  }

  /** Removing one occurrence of `a[0]` from a permutation of `a` leaves a
      permutation of `a[1..]`. */
  lemma PermutationSplit<T>(a: seq<T>, b: seq<T>) returns (k: nat)
    requires |a| > 0 && multiset(a) == multiset(b)
    ensures k < |b| && b[k] == a[0]
    ensures multiset(a[1..]) == multiset(b[..k] + b[k + 1..])
  {
    assert a[0] in multiset(b);
    k :| 0 <= k < |b| && b[k] == a[0];
    assert a == [a[0]] + a[1..];
    assert multiset(a) == multiset{a[0]} + multiset(a[1..]);
    assert b == b[..k] + [b[k]] + b[k + 1..];
    assert multiset(b) == multiset(b[..k]) + multiset{b[k]} + multiset(b[k + 1..]);
    assert multiset(b[..k] + b[k + 1..]) == multiset(b[..k]) + multiset(b[k + 1..]);
    assert multiset(a[1..]) == multiset(a) - multiset{a[0]};
    assert multiset(b[..k] + b[k + 1..]) == multiset(b) - multiset{b[k]};
  }

  lemma {:induction false} SumIntPermutation<T>(a: seq<T>, b: seq<T>, f: T -> int)
    requires multiset(a) == multiset(b)
    ensures SumInt(a, f) == SumInt(b, f)
    decreases |a|
  {
    if |a| == 0 {
      assert |b| == |multiset(b)| == 0;
    } else {
      var k := PermutationSplit(a, b);
      SumIntPermutation(a[1..], b[..k] + b[k + 1..], f);
      assert b == b[..k] + ([b[k]] + b[k + 1..]);
      SumIntAppend(b[..k], [b[k]] + b[k + 1..], f);
      SumIntAppend(b[..k], b[k + 1..], f);
    }
  }

  lemma {:induction false} SumRealPermutation<T>(a: seq<T>, b: seq<T>, f: T -> real)
    requires multiset(a) == multiset(b)
    ensures SumReal(a, f) == SumReal(b, f)
    decreases |a|
  {
    if |a| == 0 {
      assert |b| == |multiset(b)| == 0;
    } else {
      var k := PermutationSplit(a, b);
      SumRealPermutation(a[1..], b[..k] + b[k + 1..], f);
      assert b == b[..k] + ([b[k]] + b[k + 1..]);
      SumRealAppend(b[..k], [b[k]] + b[k + 1..], f);
      SumRealAppend(b[..k], b[k + 1..], f);
    }
  }

  lemma MaxPermutation<T>(a: seq<T>, b: seq<T>, f: T -> int)
    requires multiset(a) == multiset(b)
    ensures MaxOf(a, f) == MaxOf(b, f)
  {
    assert |a| == |multiset(a)| == |b|;
    if |a| > 0 {
      var ma, mb := MaxOf(a, f).value, MaxOf(b, f).value;
      var i :| 0 <= i < |a| && f(a[i]) == ma;
      var j :| 0 <= j < |b| && f(b[j]) == mb;
      assert a[i] in multiset(b);
      var i' :| 0 <= i' < |b| && b[i'] == a[i];
      assert f(b[i']) <= mb;
      assert b[j] in multiset(a);
      var j' :| 0 <= j' < |a| && a[j'] == b[j];
      assert f(a[j']) <= ma;
    }
  }

  lemma MinPermutation<T>(a: seq<T>, b: seq<T>, f: T -> int)
    requires multiset(a) == multiset(b)
    ensures MinOf(a, f) == MinOf(b, f)
  {
    assert |a| == |multiset(a)| == |b|;
    if |a| > 0 {
      var ma, mb := MinOf(a, f).value, MinOf(b, f).value;
      var i :| 0 <= i < |a| && f(a[i]) == ma;
      var j :| 0 <= j < |b| && f(b[j]) == mb;
      assert a[i] in multiset(b);
      var i' :| 0 <= i' < |b| && b[i'] == a[i];
      assert f(b[i']) >= mb;
      assert b[j] in multiset(a);
      var j' :| 0 <= j' < |a| && a[j'] == b[j];
      assert f(a[j']) >= ma;
    }
  }

  lemma AveragePermutation<T>(a: seq<T>, b: seq<T>, f: T -> int)
    requires multiset(a) == multiset(b)
    ensures AverageOf(a, f) == AverageOf(b, f)
  {
    assert |a| == |multiset(a)| == |b|;
    SumIntPermutation(a, b, f);
  }
}
