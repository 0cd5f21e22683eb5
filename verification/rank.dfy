/** `calculate_sample_rank` (rank_calculation_utils.py): replace the sample's
    rows in the population entropy table, then rank every feature as a
    percentile within each (division, contrast adjustment) group, with pandas'
    average tie method. */
module Rank {
  import opened Common
  import opened Entropy

  /** The rows of another sample, in order. */
  function WithoutSample(rows: seq<EntropyRow>, name: string): (r: seq<EntropyRow>)
    ensures |r| <= |rows|
    ensures forall i :: 0 <= i < |r| ==> r[i].key.sample != name
  {
    if |rows| == 0 then []
    else
      var last := rows[|rows| - 1];
      var front := WithoutSample(rows[..|rows| - 1], name);
      if last.key.sample != name then front + [last] else front
  }

  /** The rows of the sample, in order. */
  function WithSample(rows: seq<EntropyRow>, name: string): (r: seq<EntropyRow>)
    ensures |r| <= |rows|
    ensures forall i :: 0 <= i < |r| ==> r[i].key.sample == name
  {
    if |rows| == 0 then []
    else
      var last := rows[|rows| - 1];
      var front := WithSample(rows[..|rows| - 1], name);
      if last.key.sample == name then front + [last] else front
  }

  /** `WithoutSample` keeps every row of another sample as often as it occurs,
      and nothing else. */
  lemma {:induction false} WithoutSampleCount(rows: seq<EntropyRow>, name: string, x: EntropyRow)
    ensures multiset(WithoutSample(rows, name))[x] == if x.key.sample != name then multiset(rows)[x] else 0
  {
    if |rows| > 0 {
      var front := rows[..|rows| - 1];
      WithoutSampleCount(front, name, x);
      FrontLast(rows);
    }
  }

  /** `WithSample` keeps every row of the sample as often as it occurs, and
      nothing else. */
  lemma {:induction false} WithSampleCount(rows: seq<EntropyRow>, name: string, x: EntropyRow)
    ensures multiset(WithSample(rows, name))[x] == if x.key.sample == name then multiset(rows)[x] else 0
  {
    if |rows| > 0 {
      var front := rows[..|rows| - 1];
      WithSampleCount(front, name, x);
      FrontLast(rows);
    }
  }

  lemma {:induction false} WithSampleAppend(a: seq<EntropyRow>, b: seq<EntropyRow>, name: string)
    ensures WithSample(a + b, name) == WithSample(a, name) + WithSample(b, name)
  {
    if |b| == 0 {
      assert a + b == a;
    } else {
      var b' := b[..|b| - 1];
      var last := b[|b| - 1];
      assert (a + b)[..|a + b| - 1] == a + b';
      assert (a + b)[|a + b| - 1] == last;
      WithSampleAppend(a, b', name);
      var tail := if last.key.sample == name then [last] else [];
      assert WithSample(a + b, name) == WithSample(a + b', name) + tail;
      assert WithSample(b, name) == WithSample(b', name) + tail;
      ConcatAssoc(WithSample(a, name), WithSample(b', name), tail);
    }
  }

  lemma {:induction false} WithSampleAll(rows: seq<EntropyRow>, name: string)
    requires forall i :: 0 <= i < |rows| ==> rows[i].key.sample == name
    ensures WithSample(rows, name) == rows
  {
    if |rows| > 0 {
      WithSampleAll(rows[..|rows| - 1], name);
      assert rows == rows[..|rows| - 1] + [rows[|rows| - 1]];
    }
  }

  lemma {:induction false} WithSampleNone(rows: seq<EntropyRow>, name: string)
    requires forall i :: 0 <= i < |rows| ==> rows[i].key.sample != name
    ensures WithSample(rows, name) == []
  {
    if |rows| > 0 {
      WithSampleNone(rows[..|rows| - 1], name);
    }
  }

  lemma {:induction false} WithoutSampleAll(rows: seq<EntropyRow>, name: string)
    requires forall i :: 0 <= i < |rows| ==> rows[i].key.sample != name
    ensures WithoutSample(rows, name) == rows
  {
    if |rows| > 0 {
      WithoutSampleAll(rows[..|rows| - 1], name);
      assert rows == rows[..|rows| - 1] + [rows[|rows| - 1]];
    }
  }

  lemma {:induction false} WithoutSampleAppend(a: seq<EntropyRow>, b: seq<EntropyRow>, name: string)
    ensures WithoutSample(a + b, name) == WithoutSample(a, name) + WithoutSample(b, name)
  {
    if |b| == 0 {
      assert a + b == a;
    } else {
      var b' := b[..|b| - 1];
      var last := b[|b| - 1];
      assert (a + b)[..|a + b| - 1] == a + b';
      assert (a + b)[|a + b| - 1] == last;
      WithoutSampleAppend(a, b', name);
      var tail := if last.key.sample != name then [last] else [];
      assert WithoutSample(a + b, name) == WithoutSample(a + b', name) + tail;
      assert WithoutSample(b, name) == WithoutSample(b', name) + tail;
      ConcatAssoc(WithoutSample(a, name), WithoutSample(b', name), tail);
    }
  }

  lemma {:induction false} WithoutSampleNone(rows: seq<EntropyRow>, name: string)
    requires forall i :: 0 <= i < |rows| ==> rows[i].key.sample == name
    ensures WithoutSample(rows, name) == []
  {
    if |rows| > 0 {
      WithoutSampleNone(rows[..|rows| - 1], name);
    }
  }

  /** Lines 133-136: the population's rows of other samples, in their order,
      followed by the new rows. */
  function UpdateTable(population: seq<EntropyRow>, incoming: seq<EntropyRow>, name: string): (r: seq<EntropyRow>)
    ensures |r| == |WithoutSample(population, name)| + |incoming|
    ensures r[..|r| - |incoming|] == WithoutSample(population, name)
    ensures r[|r| - |incoming|..] == incoming
    ensures forall i :: 0 <= i < |r| - |incoming| ==> r[i].key.sample != name
    ensures forall x: EntropyRow :: x.key.sample != name ==> multiset(r)[x] == multiset(population)[x] + multiset(incoming)[x]
  {
    var kept := WithoutSample(population, name);
    assert forall x: EntropyRow :: x.key.sample != name ==>
             multiset(kept + incoming)[x] == multiset(population)[x] + multiset(incoming)[x] by {
      forall x: EntropyRow | x.key.sample != name {
        WithoutSampleCount(population, name, x);
      }
    }
    kept + incoming
  }

  /** Reprocessing a sample is idempotent: submitting the same rows again, all
      carrying the sample's name, leaves the table as it was, with no
      duplicate rows for that sample. */
  lemma UpdateIdempotent(population: seq<EntropyRow>, incoming: seq<EntropyRow>, name: string)
    requires forall i :: 0 <= i < |incoming| ==> incoming[i].key.sample == name
    ensures UpdateTable(UpdateTable(population, incoming, name), incoming, name) == UpdateTable(population, incoming, name)
  {
    var kept := WithoutSample(population, name);
    WithoutSampleAppend(kept, incoming, name);
    WithoutSampleAll(kept, name);
    WithoutSampleNone(incoming, name);
    calc {
      UpdateTable(UpdateTable(population, incoming, name), incoming, name);
      WithoutSample(kept + incoming, name) + incoming;
      (WithoutSample(kept, name) + WithoutSample(incoming, name)) + incoming;
      (kept + []) + incoming;
      { assert kept + [] == kept; }
      kept + incoming;
    }
  }

  /** After the update, the sample's rows are exactly the new rows, in order. */
  lemma SampleRowsAreIncoming(population: seq<EntropyRow>, incoming: seq<EntropyRow>, name: string)
    requires forall i :: 0 <= i < |incoming| ==> incoming[i].key.sample == name
    ensures WithSample(UpdateTable(population, incoming, name), name) == incoming
  {
    var kept := WithoutSample(population, name);
    WithSampleAppend(kept, incoming, name);
    WithSampleNone(kept, name);
    WithSampleAll(incoming, name);
  }

  predicate InGroup(row: EntropyRow, division: int, adjustment: bool) {
    row.key.division == division && row.key.adjustment == adjustment
  }

  /** The non-missing values of one feature in one (division, adjustment)
      group: the values `rank` sees; a missing value (NaN) takes no part. */
  function GroupValues(rows: seq<EntropyRow>, division: int, adjustment: bool, feature: string): (vs: seq<real>)
    ensures |vs| <= |rows|
    ensures forall i :: 0 <= i < |rows| && InGroup(rows[i], division, adjustment) && feature in rows[i].values ==>
              rows[i].values[feature] in vs
  {
    if |rows| == 0 then []
    else
      var last := rows[|rows| - 1];
      var front := GroupValues(rows[..|rows| - 1], division, adjustment, feature);
      assert forall i :: 0 <= i < |rows| - 1 ==> rows[..|rows| - 1][i] == rows[i];
      if InGroup(last, division, adjustment) && feature in last.values then front + [last.values[feature]] else front
  }

  /** The rows that `rank` sees for a group: in the group, holding the feature. */
  predicate Holds(row: EntropyRow, division: int, adjustment: bool, feature: string) {
    InGroup(row, division, adjustment) && feature in row.values
  }

  /** The positions of the rows of the group that hold the feature. */
  function Holders(rows: seq<EntropyRow>, division: int, adjustment: bool, feature: string): set<int> {
    set i | 0 <= i < |rows| && Holds(rows[i], division, adjustment, feature)
  }

  /** The positions of the rows of the group whose value of the feature is x. */
  function HoldersOf(rows: seq<EntropyRow>, division: int, adjustment: bool, feature: string, x: real): set<int> {
    set i | 0 <= i < |rows| && Holds(rows[i], division, adjustment, feature) && rows[i].values[feature] == x
  }

  /** Dropping the last row drops at most its own position from either set. */
  lemma HoldersStep(rows: seq<EntropyRow>, division: int, adjustment: bool, feature: string, x: real)
    requires |rows| > 0
    ensures var n := |rows| - 1;
            var last := rows[n];
            && Holders(rows, division, adjustment, feature)
               == Holders(rows[..n], division, adjustment, feature)
                  + (if Holds(last, division, adjustment, feature) then {n} else {})
            && HoldersOf(rows, division, adjustment, feature, x)
               == HoldersOf(rows[..n], division, adjustment, feature, x)
                  + (if Holds(last, division, adjustment, feature) && last.values[feature] == x then {n} else {})
  {
    var n := |rows| - 1;
    assert forall i :: 0 <= i < n ==> rows[..n][i] == rows[i];
  }

  /** The group's values are exactly the feature's values of the rows of the
      group that hold it, each as often as such rows carry it: no value comes
      from elsewhere. */
  lemma {:induction false} GroupValuesMultiplicity(rows: seq<EntropyRow>, division: int, adjustment: bool, feature: string, x: real)
    ensures multiset(GroupValues(rows, division, adjustment, feature))[x] == |HoldersOf(rows, division, adjustment, feature, x)|
  {
    if |rows| > 0 {
      var n := |rows| - 1;
      GroupValuesMultiplicity(rows[..n], division, adjustment, feature, x);
      HoldersStep(rows, division, adjustment, feature, x);
      assert n !in HoldersOf(rows[..n], division, adjustment, feature, x);
    }
  }

  /** The group size n of the rank is the number of rows of the group that
      hold the feature. */
  lemma {:induction false} GroupSize(rows: seq<EntropyRow>, division: int, adjustment: bool, feature: string)
    ensures |GroupValues(rows, division, adjustment, feature)| == |Holders(rows, division, adjustment, feature)|
  {
    if |rows| > 0 {
      var n := |rows| - 1;
      GroupSize(rows[..n], division, adjustment, feature);
      HoldersStep(rows, division, adjustment, feature, 0.0);
      assert n !in Holders(rows[..n], division, adjustment, feature);
    }
  }

  /** Rows of other groups have no effect on a group's values, wherever they sit. */
  lemma {:induction false} GroupValuesAppend(a: seq<EntropyRow>, b: seq<EntropyRow>, division: int, adjustment: bool, feature: string)
    ensures GroupValues(a + b, division, adjustment, feature)
            == GroupValues(a, division, adjustment, feature) + GroupValues(b, division, adjustment, feature)
  {
    if |b| == 0 {
      assert a + b == a;
    } else {
      var b' := b[..|b| - 1];
      assert (a + b)[..|a + b| - 1] == a + b';
      GroupValuesAppend(a, b', division, adjustment, feature);
    }
  }

  lemma {:induction false} OtherGroupsIgnored(rows: seq<EntropyRow>, division: int, adjustment: bool, feature: string)
    requires forall i :: 0 <= i < |rows| ==> !InGroup(rows[i], division, adjustment)
    ensures GroupValues(rows, division, adjustment, feature) == []
  {
    if |rows| > 0 {
      OtherGroupsIgnored(rows[..|rows| - 1], division, adjustment, feature);
    }
  }

  /** Values strictly below v. */
  function CountLess(vs: seq<real>, v: real): (c: nat)
    ensures c <= |vs|
  {
    if |vs| == 0 then 0 else CountLess(vs[..|vs| - 1], v) + (if vs[|vs| - 1] < v then 1 else 0)
  }

  /** Smaller and equal values together are at most all values, and all of
      them exactly when no value exceeds v. */
  lemma {:induction false} CountsBelow(vs: seq<real>, v: real)
    ensures CountLess(vs, v) + Count(vs, v) <= |vs|
    ensures CountLess(vs, v) + Count(vs, v) == |vs| <==> forall i :: 0 <= i < |vs| ==> vs[i] <= v
  {
    if |vs| > 0 {
      var front := vs[..|vs| - 1];
      CountsBelow(front, v);
      assert forall i :: 0 <= i < |front| ==> front[i] == vs[i];
      if CountLess(vs, v) + Count(vs, v) == |vs| {
        assert CountLess(front, v) + Count(front, v) == |front|;
      }
    }
  }

  /** A larger value has at least as many smaller values as the smaller value
      has smaller-or-equal ones. */
  lemma {:induction false} CountLessGrows(vs: seq<real>, v: real, w: real)
    requires v < w
    ensures CountLess(vs, w) >= CountLess(vs, v) + Count(vs, v)
  {
    if |vs| > 0 {
      CountLessGrows(vs[..|vs| - 1], v, w);
    }
  }

  lemma RatioFacts(c: real, n: real)
    requires 0.0 < c <= n
    ensures 0.0 < c / n <= 1.0
    ensures c / n == 1.0 <==> c == n
  {
    MassFacts(c, n);
    DivMul(c, n);
  }

  lemma RatioStrict(c: real, c': real, n: real)
    requires n > 0.0 && c < c'
    ensures c / n < c' / n
  {
    var d := (c' - c) / n;
    DivMul(c' - c, n);
    DivMul(c, n);
    DivMul(c', n);
    assert c' / n == c / n + d;
    assert d > 0.0;
  }

  /** Line 145: `rank(pct=True) * 100` with the average tie method: a value
      with L smaller and E equal values (itself included) among n gets
      `100 * (L + (E + 1) / 2) / n`. */
  function PercentRank(vs: seq<real>, v: real): (r: real)
    requires v in vs
    ensures 0.0 < r <= 100.0
    ensures r == 100.0 <==> Count(vs, v) == 1 && forall i :: 0 <= i < |vs| ==> vs[i] <= v
  {
    CountsBelow(vs, v);
    RatioFacts(CountLess(vs, v) as real + (Count(vs, v) as real + 1.0) / 2.0, |vs| as real);
    RankFormula(CountLess(vs, v), Count(vs, v), |vs|)
  }

  /** `100 * (L + (E + 1) / 2) / n` for L smaller and E equal values among n. */
  function RankFormula(less: nat, equal: nat, n: nat): real
    requires n > 0
  {
    100.0 * ((less as real + (equal as real + 1.0) / 2.0) / n as real)
  }

  /** Ranks are strictly monotone within a group. */
  lemma RankMonotone(vs: seq<real>, v: real, w: real)
    requires v in vs && w in vs && v < w
    ensures PercentRank(vs, v) < PercentRank(vs, w)
  {
    CountLessGrows(vs, v, w);
    var Lv := CountLess(vs, v) as real;
    var Ev := Count(vs, v) as real;
    var Lw := CountLess(vs, w) as real;
    var Ew := Count(vs, w) as real;
    RatioStrict(Lv + (Ev + 1.0) / 2.0, Lw + (Ew + 1.0) / 2.0, |vs| as real);
  }

  /** The sum of the ordinal positions L+1, ..., L+E that E tied values share. */
  function OrdinalSum(L: nat, E: nat): nat {
    if E == 0 then 0 else OrdinalSum(L, E - 1) + L + E
  }

  lemma CancelFactor(x: real, y: real, e: real)
    requires e > 0.0 && x * e == y * e
    ensures x == y
  {
    if x < y {
      NonPositiveFactor(y - x, e);
    } else if y < x {
      NonPositiveFactor(x - y, e);
    }
  }

  lemma {:induction false} OrdinalSumClosed(L: nat, E: nat)
    ensures 2.0 * OrdinalSum(L, E) as real == E as real * (2.0 * L as real + E as real + 1.0)
  {
    if E > 0 {
      OrdinalSumClosed(L, E - 1);
      var e := E as real;
      var l := L as real;
      assert (e - 1.0) * (2.0 * l + e) + 2.0 * (l + e) == e * (2.0 * l + e + 1.0);
    }
  }

  /** The ordinal positions L+1, ..., L+E average to L + (E+1)/2. */
  lemma AverageOrdinal(L: nat, E: nat)
    requires E >= 1
    ensures OrdinalSum(L, E) as real / E as real == L as real + (E as real + 1.0) / 2.0
  {
    var e := E as real;
    var S := OrdinalSum(L, E) as real;
    var avg := L as real + (e + 1.0) / 2.0;
    OrdinalSumClosed(L, E);
    HalfProduct(S, e, L as real);
    QuotientOf(S, e, avg);
  }

  lemma QuotientOf(s: real, e: real, q: real)
    requires e > 0.0 && q * e == s
    ensures s / e == q
  {
    DivMul(s, e);
    CancelFactor(s / e, q, e);
  }

  lemma HalfProduct(s: real, e: real, l: real)
    requires 2.0 * s == e * (2.0 * l + e + 1.0)
    ensures (l + (e + 1.0) / 2.0) * e == s
  {
  }

  /** The mean of the ordinal positions L+1, ..., L+E. */
  function MeanOrdinal(L: nat, E: nat): real
    requires E >= 1
  {
    OrdinalSum(L, E) as real / E as real
  }

  /** The tie convention is the average method: the rank the formula gives is
      the mean of the ordinal positions the tied values occupy, over n. */
  lemma PercentRankIsAverageOrdinal(vs: seq<real>, v: real)
    requires v in vs
    ensures Count(vs, v) >= 1
    ensures PercentRank(vs, v) == 100.0 * (MeanOrdinal(CountLess(vs, v), Count(vs, v)) / |vs| as real)
  {
    FormulaIsAverage(CountLess(vs, v), Count(vs, v), |vs|);
  }

  lemma FormulaIsAverage(L: nat, E: nat, n: nat)
    requires E >= 1 && n > 0
    ensures RankFormula(L, E, n) == 100.0 * (MeanOrdinal(L, E) / n as real)
  {
    AverageOrdinal(L, E);
  }

  /** The rank of one row's feature: None where the value is missing. */
  function RankOf(rows: seq<EntropyRow>, row: EntropyRow, feature: string): (r: Option<real>)
    requires row in rows
    ensures r.Some? <==> feature in row.values
    ensures r.Some? ==> 0.0 < r.value <= 100.0
  {
    if feature in row.values then
      var vs := GroupValues(rows, row.key.division, row.key.adjustment, feature);
      assert row.values[feature] in vs;
      Some(PercentRank(vs, row.values[feature]))
    else None
  }

  /** One row of the result: the key columns and one `<feature>_rank` column
      per feature, here keyed by the feature's name. */
  datatype RankRow = RankRow(key: Key, ranks: map<string, Option<real>>)

  /** The first feature that is not a column of the table, if any. */
  function FirstMissing(features: seq<string>, columns: set<string>): (r: Option<string>)
    ensures r.None? <==> forall i :: 0 <= i < |features| ==> features[i] in columns
    ensures r.Some? ==> r.value in features && r.value !in columns
  {
    if |features| == 0 then None
    else if features[0] !in columns then Some(features[0])
    else
      var rest := FirstMissing(features[1..], columns);
      assert forall i :: 1 <= i < |features| ==> features[i] == features[1..][i - 1];
      rest
  }

  lemma WithSampleRows(rows: seq<EntropyRow>, name: string)
    ensures forall j :: 0 <= j < |WithSample(rows, name)| ==>
              WithSample(rows, name)[j] in rows && WithSample(rows, name)[j].key.sample == name
  {
    var r := WithSample(rows, name);
    forall j | 0 <= j < |r| ensures r[j] in rows && r[j].key.sample == name {
      WithSampleCount(rows, name, r[j]);
      assert multiset(r)[r[j]] > 0;
    }
  }

  /** `calculate_sample_rank`. The sample's name is the sample of the first new
      row (an empty entropy sample raises); its old rows are replaced; a
      feature that is no column of the combined table raises; the result holds
      one row per row of the sample, in table order, with that row's percentile
      rank of every feature within its group. */
  function CalculateSampleRank(population: seq<EntropyRow>, populationColumns: set<string>,
                               incoming: seq<EntropyRow>, incomingColumns: set<string>,
                               features: seq<string>): (r: Result<seq<RankRow>>)
    ensures |incoming| == 0 <==> r == Err(EmptySample)
    ensures |incoming| > 0 ==>
              (r.Err? <==> exists i :: 0 <= i < |features| && features[i] !in populationColumns + incomingColumns)
    ensures r.Err? && |incoming| > 0 ==>
              r.error.MissingColumn? && r.error.name in features && r.error.name !in populationColumns + incomingColumns
    ensures r.Ok? ==>
              var name := incoming[0].key.sample;
              var rows := UpdateTable(population, incoming, name);
              var own := WithSample(rows, name);
              && |r.value| == |own|
              && forall j :: 0 <= j < |r.value| ==>
                   && r.value[j].key == own[j].key
                   && r.value[j].key.sample == name
                   && (forall f :: f in r.value[j].ranks <==> f in features)
                   && (WithSampleRows(rows, name);
                       forall f :: f in r.value[j].ranks ==> r.value[j].ranks[f] == RankOf(rows, own[j], f))
  {
    if |incoming| == 0 then Err(EmptySample)
    else
      var name := incoming[0].key.sample;
      var rows := UpdateTable(population, incoming, name);
      match FirstMissing(features, populationColumns + incomingColumns)
      case Some(f) => Err(MissingColumn(f))
      case None =>
        var own := WithSample(rows, name);
        WithSampleRows(rows, name);
        Ok(seq(|own|, j requires 0 <= j < |own| =>
                 RankRow(own[j].key, map f | f in features :: RankOf(rows, own[j], f))))
  }

  /** When every new row carries the sample's name, the result has exactly one
      row per new row, with the same keys in the same order. */
  lemma RanksCoverIncomingRows(population: seq<EntropyRow>, populationColumns: set<string>,
                            incoming: seq<EntropyRow>, incomingColumns: set<string>, features: seq<string>)
    requires |incoming| > 0
    requires forall i :: 0 <= i < |incoming| ==> incoming[i].key.sample == incoming[0].key.sample
    requires forall i :: 0 <= i < |features| ==> features[i] in populationColumns + incomingColumns
    ensures var r := CalculateSampleRank(population, populationColumns, incoming, incomingColumns, features);
            && r.Ok?
            && |r.value| == |incoming|
            && forall j :: 0 <= j < |incoming| ==> r.value[j].key == incoming[j].key
  {
    SampleRowsAreIncoming(population, incoming, incoming[0].key.sample);
  }
}
