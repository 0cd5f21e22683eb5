/** The order statistics and the mean of one flattened subcube, computed
    exactly over reals: numpy's `min`, `max`, `median` and `mean`. */
module Stats {

  function Sum(s: seq<real>): real {
    if |s| == 0 then 0.0 else Sum(s[..|s| - 1]) + s[|s| - 1]
  }

  /** numpy's `min` of a non-empty array: an element no larger than any other. */
  function SeqMin(s: seq<real>): (m: real)
    requires |s| > 0
    ensures m in s
    ensures forall i :: 0 <= i < |s| ==> m <= s[i]
  {
    if |s| == 1 then s[0]
    else
      var rest := SeqMin(s[..|s| - 1]);
      assert forall i :: 0 <= i < |s| - 1 ==> s[..|s| - 1][i] == s[i];
      if s[|s| - 1] < rest then s[|s| - 1] else rest
  }

  /** numpy's `max` of a non-empty array: an element no smaller than any other. */
  function SeqMax(s: seq<real>): (m: real)
    requires |s| > 0
    ensures m in s
    ensures forall i :: 0 <= i < |s| ==> s[i] <= m
  {
    if |s| == 1 then s[0]
    else
      var rest := SeqMax(s[..|s| - 1]);
      assert forall i :: 0 <= i < |s| - 1 ==> s[..|s| - 1][i] == s[i];
      if s[|s| - 1] > rest then s[|s| - 1] else rest
  }

  predicate Sorted(s: seq<real>) {
    forall i, j :: 0 <= i < j < |s| ==> s[i] <= s[j]
  }

  /** Insert `x` into a sorted sequence, keeping it sorted. */
  function Insert(x: real, s: seq<real>): (r: seq<real>)
    requires Sorted(s)
    ensures Sorted(r)
    ensures multiset(r) == multiset(s) + multiset{x}
    ensures |r| == |s| + 1
  {
    if |s| == 0 then [x]
    else if x <= s[0] then [x] + s
    else
      var tail := Insert(x, s[1..]);
      assert s == [s[0]] + s[1..];
      HeadBelow(s, x, tail);
      ConsSorted(s[0], tail);
      [s[0]] + tail
  }

  /** Every value of a rearrangement of the sorted tail plus a larger value
      lies above the head. */
  lemma HeadBelow(s: seq<real>, x: real, tail: seq<real>)
    requires Sorted(s) && |s| > 0 && s[0] < x
    requires multiset(tail) == multiset(s[1..]) + multiset{x}
    ensures forall i :: 0 <= i < |tail| ==> s[0] <= tail[i]
  {
    forall i | 0 <= i < |tail|
      ensures s[0] <= tail[i]
    {
      assert tail[i] in multiset(tail);
      if tail[i] != x {
        assert tail[i] in s[1..];
        var k :| 0 <= k < |s[1..]| && s[1..][k] == tail[i];
        assert s[k + 1] == tail[i];
      }
    }
  }

  lemma ConsSorted(h: real, tail: seq<real>)
    requires Sorted(tail)
    requires forall i :: 0 <= i < |tail| ==> h <= tail[i]
    ensures Sorted([h] + tail)
  {
    var r := [h] + tail;
    forall i, j | 0 <= i < j < |r|
      ensures r[i] <= r[j]
    {
      assert r[j] == tail[j - 1];
      if i > 0 {
        assert r[i] == tail[i - 1];
      }
    }
  }

  /** The sorted rearrangement of `s`, as `np.median` uses it. */
  function SortSeq(s: seq<real>): (r: seq<real>)
    ensures Sorted(r)
    ensures multiset(r) == multiset(s)
    ensures |r| == |s|
  {
    if |s| == 0 then []
    else
      assert s == s[..|s| - 1] + [s[|s| - 1]];
      Insert(s[|s| - 1], SortSeq(s[..|s| - 1]))
  }

  /** numpy's `median`: the middle element of the sorted values, or the mean of
      the two middle ones for an even count. */
  function Median(s: seq<real>): (m: real)
    requires |s| > 0
    ensures SeqMin(s) <= m <= SeqMax(s)
  {
    var t := SortSeq(s);
    var n := |t|;
    assert forall i :: 0 <= i < n ==> t[i] in multiset(s);
    var lo := t[(n - 1) / 2];
    var hi := t[n / 2];
    assert lo in s && hi in s;
    if n % 2 == 1 then hi else (lo + hi) / 2.0
  }

  lemma {:induction false} SumBounds(s: seq<real>, lo: real, hi: real)
    requires forall i :: 0 <= i < |s| ==> lo <= s[i] <= hi
    ensures |s| as real * lo <= Sum(s) <= |s| as real * hi
  {
    if |s| > 0 {
      SumBounds(s[..|s| - 1], lo, hi);
    }
  }

  lemma DivideBounds(total: real, n: real, lo: real, hi: real)
    requires n > 0.0 && n * lo <= total <= n * hi
    ensures lo <= total / n <= hi
  {
    var d := total / n;
    assert d * n == total;
  }

  /** The exact mean of values bounded by lo and hi is bounded by them too. */
  lemma MeanWithin(s: seq<real>, lo: real, hi: real)
    requires |s| > 0
    requires forall i :: 0 <= i < |s| ==> lo <= s[i] <= hi
    ensures lo <= Sum(s) / |s| as real <= hi
  {
    SumBounds(s, lo, hi);
    DivideBounds(Sum(s), |s| as real, lo, hi);
  }

  /** numpy's `mean`, taken exactly. */
  function Mean(s: seq<real>): (m: real)
    requires |s| > 0
    ensures SeqMin(s) <= m <= SeqMax(s)
  {
    MeanWithin(s, SeqMin(s), SeqMax(s));
    Sum(s) / |s| as real
  }
}
