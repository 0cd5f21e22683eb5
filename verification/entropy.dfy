/** The discrete branch of `entropy`, the row filter of
    `process_adjustment_division_feature`, `calculate_sample_entropy` and the
    pivot of `generate_entropy_df` (rank_calculation_utils.py). */
module Entropy {
  import opened Common
  import Stats

  /** Occurrences of x in s. */
  function Count<T(==)>(s: seq<T>, x: T): (c: nat)
    ensures c <= |s|
    ensures c > 0 <==> x in s
  {
    if |s| == 0 then 0
    else
      assert s == s[..|s| - 1] + [s[|s| - 1]];
      Count(s[..|s| - 1], x) + (if s[|s| - 1] == x then 1 else 0)
  }

  /** The distinct elements of s, each once, in order of first occurrence. */
  function Distinct<T(==,!new)>(s: seq<T>): (d: seq<T>)
    ensures forall x :: x in d <==> x in s
    ensures forall i, j :: 0 <= i < j < |d| ==> d[i] != d[j]
  {
    if |s| == 0 then []
    else
      var x := s[|s| - 1];
      assert s == s[..|s| - 1] + [x];
      var front := Distinct(s[..|s| - 1]);
      if x in front then front else front + [x]
  }

  lemma MassFacts(c: real, n: real)
    requires 0.0 < c <= n
    ensures 0.0 < c / n <= 1.0
    ensures (c / n) * n == c
  {
    DivMul(c, n);
    NonPositiveFactor(c / n - 1.0, n);
  }

  lemma DivMul(c: real, n: real)
    requires n > 0.0
    ensures (c / n) * n == c
  {
  }

  lemma NonPositiveFactor(a: real, n: real)
    requires n > 0.0 && a * n <= 0.0
    ensures a <= 0.0
  {
  }

  /** Each of xs divided by n. */
  function Scaled(xs: seq<real>, n: real): (ys: seq<real>)
    requires n > 0.0
    ensures |ys| == |xs|
    ensures forall i :: 0 <= i < |ys| ==> ys[i] == xs[i] / n
  {
    if |xs| == 0 then [] else Scaled(xs[..|xs| - 1], n) + [xs[|xs| - 1] / n]
  }

  /** The count of each key among `values`. */
  function CountsOf(values: seq<real>, keys: seq<real>): (cs: seq<real>)
    ensures |cs| == |keys|
    ensures forall i :: 0 <= i < |cs| ==> cs[i] == Count(values, keys[i]) as real
  {
    if |keys| == 0 then [] else CountsOf(values, keys[..|keys| - 1]) + [Count(values, keys[|keys| - 1]) as real]
  }

  /** Lines 24-25: `value_counts(normalize=True)` of a feature column: one mass
      per distinct value, its count over the column length, and every mass a
      proper probability. */
  function Pmf(values: seq<real>): (p: seq<real>)
    requires |values| > 0
    ensures |p| == |Distinct(values)|
    ensures forall i :: 0 <= i < |p| ==> p[i] == Count(values, Distinct(values)[i]) as real / |values| as real
    ensures forall i :: 0 <= i < |p| ==> 0.0 < p[i] <= 1.0
  {
    var d := Distinct(values);
    var p := Scaled(CountsOf(values, d), |values| as real);
    forall i | 0 <= i < |p|
      ensures 0.0 < p[i] <= 1.0
    {
      assert d[i] in values;
      MassFacts(Count(values, d[i]) as real, |values| as real);
    }
    p
  }

  /** The sum of the counts of `keys`. */
  function CountSum(keys: seq<real>, s: seq<real>): nat {
    if |keys| == 0 then 0 else CountSum(keys[..|keys| - 1], s) + Count(s, keys[|keys| - 1])
  }

  lemma {:induction false} CountSumAppend(keys: seq<real>, s: seq<real>, x: real)
    requires forall i, j :: 0 <= i < j < |keys| ==> keys[i] != keys[j]
    ensures CountSum(keys, s + [x]) == CountSum(keys, s) + (if x in keys then 1 else 0)
  {
    if |keys| > 0 {
      var front := keys[..|keys| - 1];
      var k := keys[|keys| - 1];
      assert keys == front + [k];
      CountSumAppend(front, s, x);
      assert (s + [x])[..|s + [x]| - 1] == s;
      if x == k {
        assert x !in front by {
          forall i | 0 <= i < |front| ensures front[i] != x {
            assert keys[i] != keys[|keys| - 1];
          }
        }
      }
    }
  }

  /** Every element of s is counted once, under its own distinct value. */
  lemma {:induction false} CountsCoverAll(s: seq<real>)
    ensures CountSum(Distinct(s), s) == |s|
  {
    if |s| > 0 {
      var f := s[..|s| - 1];
      var x := s[|s| - 1];
      assert s == f + [x];
      CountsCoverAll(f);
      var df := Distinct(f);
      CountSumAppend(df, f, x);
      if x !in df {
        assert Count(f, x) == 0;
        var d := df + [x];
        assert d[..|d| - 1] == df;
      }
    }
  }

  lemma AddDiv(a: real, b: real, n: real)
    requires n > 0.0
    ensures a / n + b / n == (a + b) / n
  {
  }

  lemma {:induction false} ScaledSum(xs: seq<real>, n: real)
    requires n > 0.0
    ensures Stats.Sum(Scaled(xs, n)) == Stats.Sum(xs) / n
  {
    if |xs| > 0 {
      var f := xs[..|xs| - 1];
      ScaledSum(f, n);
      var ys := Scaled(xs, n);
      assert ys[..|ys| - 1] == Scaled(f, n);
      AddDiv(Stats.Sum(f), xs[|xs| - 1], n);
    }
  }

  lemma {:induction false} CountsOfSum(values: seq<real>, keys: seq<real>)
    ensures Stats.Sum(CountsOf(values, keys)) == CountSum(keys, values) as real
  {
    if |keys| > 0 {
      var cs := CountsOf(values, keys);
      CountsOfSum(values, keys[..|keys| - 1]);
      assert cs[..|cs| - 1] == CountsOf(values, keys[..|keys| - 1]);
    }
  }

  lemma SelfDiv(n: real)
    requires n > 0.0
    ensures n / n == 1.0
  {
  }

  /** The masses of line 25 add up to one. */
  lemma PmfSumsToOne(values: seq<real>)
    requires |values| > 0
    ensures Stats.Sum(Pmf(values)) == 1.0
  {
    var d := Distinct(values);
    var n := |values| as real;
    var cs := CountsOf(values, d);
    assert Pmf(values) == Scaled(cs, n);
    ScaledSum(cs, n);
    CountsOfSum(values, d);
    CountsCoverAll(values);
    assert Stats.Sum(cs) == n;
    SelfDiv(n);
  }

  lemma {:induction false} CountConstant(values: seq<real>, v: real)
    requires forall i :: 0 <= i < |values| ==> values[i] == v
    ensures Count(values, v) == |values|
  {
    if |values| > 0 {
      CountConstant(values[..|values| - 1], v);
    }
  }

  lemma {:induction false} DistinctConstant(values: seq<real>, v: real)
    requires |values| > 0
    requires forall i :: 0 <= i < |values| ==> values[i] == v
    ensures Distinct(values) == [v]
  {
    if |values| > 1 {
      DistinctConstant(values[..|values| - 1], v);
    }
  }

  /** A constant column has the single mass 1 (and so zero entropy). */
  lemma ConstantPmf(values: seq<real>, v: real)
    requires |values| > 0
    requires forall i :: 0 <= i < |values| ==> values[i] == v
    ensures Pmf(values) == [1.0]
  {
    DistinctConstant(values, v);
    CountConstant(values, v);
    var n := |values| as real;
    assert CountsOf(values, [v]) == [n];
    SelfDiv(n);
    assert Scaled([n], n) == [1.0];
  }

  /** Line 22: the features whose entropy is taken over value counts. */
  predicate IsDiscrete(feature: string) {
    feature == "max" || feature == "min" || feature == "median"
  }

  /** `entropy`: Shannon entropy of the value counts for the discrete features,
      a kernel density estimate otherwise. Both numeric estimators (the log2 sum
      and the KDE integral) are parameters; the model fixes what they are fed.
      An empty column has no value counts, so the discrete branch sums nothing;
      scikit-learn's `KernelDensity.fit` (line 29) refuses zero samples with
      ValueError. */
  function EntropyOf(feature: string, values: seq<real>,
                     shannon: seq<real> -> real, continuous: seq<real> -> real): (e: Result<real>)
    ensures e.Err? <==> !IsDiscrete(feature) && |values| == 0
    ensures e.Err? ==> e.error == ValueError
    ensures IsDiscrete(feature) && |values| > 0 ==> e == Ok(shannon(Pmf(values)))
    ensures IsDiscrete(feature) && |values| == 0 ==> e == Ok(shannon([]))
    ensures !IsDiscrete(feature) && |values| > 0 ==> e == Ok(continuous(values))
  {
    if IsDiscrete(feature) then
      if |values| == 0 then Ok(shannon([])) else Ok(shannon(Pmf(values)))
    else if |values| == 0 then Err(ValueError)
    else Ok(continuous(values))
  }

  /** A row of the per-sample feature table; a missing value (NaN) is None. */
  datatype SampleRow = SampleRow(division: int, adjustment: bool, values: map<string, Option<real>>)

  predicate Complete(row: SampleRow) {
    forall f :: f in row.values ==> row.values[f].Some?
  }

  predicate Selected(row: SampleRow, division: int, adjustment: bool) {
    row.division == division && row.adjustment == adjustment && Complete(row)
  }

  /** Lines 83-87: the rows of one division and adjustment, then `dropna`.
      Every selected row is kept as often as it occurs and every other row is
      dropped; `FilterAppend` states that the order is kept. */
  function FilterRows(rows: seq<SampleRow>, division: int, adjustment: bool): (r: seq<SampleRow>)
    ensures |r| <= |rows|
    ensures forall row :: multiset(r)[row] == if Selected(row, division, adjustment) then multiset(rows)[row] else 0
  {
    if |rows| == 0 then []
    else
      var last := rows[|rows| - 1];
      assert rows == rows[..|rows| - 1] + [last];
      var front := FilterRows(rows[..|rows| - 1], division, adjustment);
      if Selected(last, division, adjustment) then front + [last] else front
  }

  /** Filtering distributes over concatenation, so the kept rows keep their
      relative order. */
  lemma {:induction false} FilterAppend(a: seq<SampleRow>, b: seq<SampleRow>, division: int, adjustment: bool)
    ensures FilterRows(a + b, division, adjustment) == FilterRows(a, division, adjustment) + FilterRows(b, division, adjustment)
  {
    if |b| == 0 {
      assert a + b == a;
    } else {
      var b' := b[..|b| - 1];
      var last := b[|b| - 1];
      assert (a + b)[..|a + b| - 1] == a + b';
      assert (a + b)[|a + b| - 1] == last;
      FilterAppend(a, b', division, adjustment);
      if Selected(last, division, adjustment) {
        ConcatAssoc(FilterRows(a, division, adjustment), FilterRows(b', division, adjustment), [last]);
      }
    }
  }

  /** Filtering an already filtered table changes nothing. */
  lemma {:induction false} FilterIdempotent(rows: seq<SampleRow>, division: int, adjustment: bool)
    ensures FilterRows(FilterRows(rows, division, adjustment), division, adjustment) == FilterRows(rows, division, adjustment)
  {
    if |rows| > 0 {
      var front := rows[..|rows| - 1];
      FilterIdempotent(front, division, adjustment);
      var f := FilterRows(front, division, adjustment);
      var last := rows[|rows| - 1];
      if Selected(last, division, adjustment) {
        var g := f + [last];
        assert g[..|g| - 1] == f;
      }
    }
  }

  /** `df[feature]` of rows that all hold a value for it. */
  function Column(rows: seq<SampleRow>, feature: string): (c: seq<real>)
    requires forall i :: 0 <= i < |rows| ==> feature in rows[i].values && rows[i].values[feature].Some?
    ensures |c| == |rows|
    ensures forall i :: 0 <= i < |c| ==> c[i] == rows[i].values[feature].value
  {
    seq(|rows|, i requires 0 <= i < |rows| => rows[i].values[feature].value)
  }

  /** Rows that all have the given columns and no missing value hold a value
      for every one of those columns. */
  lemma ColumnAvailable(rows: seq<SampleRow>, columns: set<string>, feature: string)
    requires forall i :: 0 <= i < |rows| ==> rows[i].values.Keys == columns && Complete(rows[i])
    requires feature in columns
    ensures forall i :: 0 <= i < |rows| ==> feature in rows[i].values && rows[i].values[feature].Some?
  {
    forall i | 0 <= i < |rows|
      ensures feature in rows[i].values && rows[i].values[feature].Some?
    {
      assert feature in rows[i].values.Keys;
    }
  }

  /** The entropy of one (sample, division, adjustment, feature). */
  datatype EntropyCell = EntropyCell(sample: string, division: int, adjustment: bool, feature: string, value: real)

  /** `calculate_sample_entropy`: a one-element list holding the entropy of the
      feature column of the given rows, tagged with sample, division and
      adjustment. A feature that is not a column is a KeyError. */
  function CalculateSampleEntropy(rows: seq<SampleRow>, columns: set<string>, adjustment: bool, division: int,
                                  feature: string, sample: string,
                                  shannon: seq<real> -> real, continuous: seq<real> -> real): (r: Result<seq<EntropyCell>>)
    requires forall i :: 0 <= i < |rows| ==> rows[i].values.Keys == columns && Complete(rows[i])
    ensures r.Err? <==> feature !in columns || (!IsDiscrete(feature) && |rows| == 0)
    ensures r.Err? && feature !in columns ==> r.error == MissingColumn(feature)
    ensures r.Err? && feature in columns ==> r.error == ValueError
    ensures r.Ok? ==>
              && |r.value| == 1
              && r.value[0].sample == sample && r.value[0].division == division
              && r.value[0].adjustment == adjustment && r.value[0].feature == feature
              && (ColumnAvailable(rows, columns, feature);
                  EntropyOf(feature, Column(rows, feature), shannon, continuous) == Ok(r.value[0].value))
  {
    if feature !in columns then Err(MissingColumn(feature))
    else
      ColumnAvailable(rows, columns, feature);
      var e := EntropyOf(feature, Column(rows, feature), shannon, continuous);
      if e.Err? then Err(e.error)
      else Ok([EntropyCell(sample, division, adjustment, feature, e.value)])
  }

  /** The kept rows are rows of the table, hence have its columns, and have no
      missing value. */
  lemma KeptRows(rows: seq<SampleRow>, columns: set<string>, division: int, adjustment: bool)
    requires forall i :: 0 <= i < |rows| ==> rows[i].values.Keys == columns
    ensures forall i :: 0 <= i < |FilterRows(rows, division, adjustment)| ==>
              FilterRows(rows, division, adjustment)[i].values.Keys == columns
              && Complete(FilterRows(rows, division, adjustment)[i])
  {
    var kept := FilterRows(rows, division, adjustment);
    forall i | 0 <= i < |kept|
      ensures kept[i].values.Keys == columns && Complete(kept[i])
    {
      assert multiset(kept)[kept[i]] > 0;
      assert kept[i] in rows;
    }
  }

  /** `process_adjustment_division_feature`: filter, standardise, then
      entropy. Line 95 reads the feature column of the kept rows, a KeyError
      when the feature is no column, and hands it to `StandardScaler.transform`,
      which raises ValueError on zero rows. The scaler's affine map itself is
      folded into the estimators: it is one-to-one, so the value-count masses
      of the discrete branch are those of the raw column. */
  function ProcessCombination(adjustment: bool, division: int, feature: string, rows: seq<SampleRow>,
                              columns: set<string>, sample: string,
                              shannon: seq<real> -> real, continuous: seq<real> -> real): (r: Result<seq<EntropyCell>>)
    requires forall i :: 0 <= i < |rows| ==> rows[i].values.Keys == columns
    ensures r.Err? <==> feature !in columns || |FilterRows(rows, division, adjustment)| == 0
    ensures r.Err? && feature !in columns ==> r.error == MissingColumn(feature)
    ensures r.Err? && feature in columns ==> r.error == ValueError
    ensures r.Ok? ==>
              var kept := FilterRows(rows, division, adjustment);
              && |r.value| == 1
              && feature in columns
              && (KeptRows(rows, columns, division, adjustment);
                  ColumnAvailable(kept, columns, feature);
                  r.value[0].sample == sample && r.value[0].division == division
                  && r.value[0].adjustment == adjustment && r.value[0].feature == feature
                  && EntropyOf(feature, Column(kept, feature), shannon, continuous) == Ok(r.value[0].value))
  {
    var kept := FilterRows(rows, division, adjustment);
    KeptRows(rows, columns, division, adjustment);
    if feature !in columns then Err(MissingColumn(feature))
    else if |kept| == 0 then Err(ValueError)
    else CalculateSampleEntropy(kept, columns, adjustment, division, feature, sample, shannon, continuous)
  }

  /** The index of the pivot table. */
  datatype Key = Key(sample: string, division: int, adjustment: bool)

  function KeyOf(c: EntropyCell): Key {
    Key(c.sample, c.division, c.adjustment)
  }

  /** One row of the entropy table: its key and, for every feature that some
      cell of the key carries, the aggregated entropy. */
  datatype EntropyRow = EntropyRow(key: Key, values: map<string, real>)

  /** Line 112. */
  function Flatten(results: seq<seq<EntropyCell>>): (cells: seq<EntropyCell>)
    ensures forall c :: c in cells <==> exists t :: 0 <= t < |results| && c in results[t]
  {
    if |results| == 0 then []
    else
      var front := results[..|results| - 1];
      var rest := Flatten(front);
      assert forall t :: 0 <= t < |front| ==> front[t] == results[t];
      rest + results[|results| - 1]
  }

  /** The cells of one key and feature, in order. */
  function Matching(cells: seq<EntropyCell>, key: Key, feature: string): (m: seq<EntropyCell>)
    ensures forall c :: c in m <==> c in cells && KeyOf(c) == key && c.feature == feature
  {
    if |cells| == 0 then []
    else
      var last := cells[|cells| - 1];
      assert cells == cells[..|cells| - 1] + [last];
      var front := Matching(cells[..|cells| - 1], key, feature);
      if KeyOf(last) == key && last.feature == feature then front + [last] else front
  }

  function ValuesOf(m: seq<EntropyCell>): (v: seq<real>)
    ensures |v| == |m|
    ensures forall i :: 0 <= i < |v| ==> v[i] == m[i].value
  {
    seq(|m|, i requires 0 <= i < |m| => m[i].value)
  }

  function FeaturesOf(cells: seq<EntropyCell>, key: Key): set<string> {
    set c | c in cells && KeyOf(c) == key :: c.feature
  }

  /** The row of one key: `pivot_table`'s default aggregation is the mean. */
  function PivotRow(cells: seq<EntropyCell>, key: Key): (row: EntropyRow)
    ensures row.key == key
    ensures row.values.Keys == FeaturesOf(cells, key)
    ensures forall f :: f in row.values ==>
              |Matching(cells, key, f)| > 0
              && Stats.SeqMin(ValuesOf(Matching(cells, key, f))) <= row.values[f]
              && row.values[f] <= Stats.SeqMax(ValuesOf(Matching(cells, key, f)))
  {
    var feats := FeaturesOf(cells, key);
    assert forall f :: f in feats ==> |Matching(cells, key, f)| > 0 by {
      forall f | f in feats ensures |Matching(cells, key, f)| > 0 {
        var c :| c in cells && KeyOf(c) == key && c.feature == f;
        assert c in Matching(cells, key, f);
      }
    }
    EntropyRow(key, map f | f in feats :: Stats.Mean(ValuesOf(Matching(cells, key, f))))
  }

  function KeysOf(cells: seq<EntropyCell>): (ks: seq<Key>)
    ensures |ks| == |cells|
    ensures forall i :: 0 <= i < |ks| ==> ks[i] == KeyOf(cells[i])
  {
    seq(|cells|, i requires 0 <= i < |cells| => KeyOf(cells[i]))
  }

  /** The pivot of non-empty results: one row per distinct (sample,
      division, adjustment), in order of first appearance; every row belongs to
      a key that some cell carries, and is that key's pivot. */
  function PivotRows(cells: seq<EntropyCell>): (table: seq<EntropyRow>)
    ensures forall i, j :: 0 <= i < j < |table| ==> table[i].key != table[j].key
    ensures forall i :: 0 <= i < |table| ==> table[i].key in KeysOf(cells)
    ensures forall i :: 0 <= i < |table| ==> table[i] == PivotRow(cells, table[i].key)
    ensures forall k :: k in KeysOf(cells) ==> exists i :: 0 <= i < |table| && table[i].key == k
  {
    var keys := Distinct(KeysOf(cells));
    var table := seq(|keys|, i requires 0 <= i < |keys| => PivotRow(cells, keys[i]));
    assert forall i :: 0 <= i < |table| ==> table[i].key == keys[i];
    table
  }

  /** Lines 112-114: flatten the workers' results and pivot them. With no cell
      at all the DataFrame has no columns, and `pivot_table` raises KeyError on
      its first index column, 'sample'. */
  function GenerateEntropyTable(results: seq<seq<EntropyCell>>): (r: Result<seq<EntropyRow>>)
    ensures r.Err? <==> |Flatten(results)| == 0
    ensures r.Err? ==> r.error == MissingColumn("sample")
    ensures r.Ok? ==> forall i, j :: 0 <= i < j < |r.value| ==> r.value[i].key != r.value[j].key
    ensures r.Ok? ==> forall i :: 0 <= i < |r.value| ==> r.value[i].key in KeysOf(Flatten(results))
    ensures r.Ok? ==> forall i :: 0 <= i < |r.value| ==> r.value[i] == PivotRow(Flatten(results), r.value[i].key)
    ensures r.Ok? ==> forall k :: k in KeysOf(Flatten(results)) ==> exists i :: 0 <= i < |r.value| && r.value[i].key == k
  {
    var cells := Flatten(results);
    if |cells| == 0 then Err(MissingColumn("sample")) else Ok(PivotRows(cells))
  }

  /** Every entropy cell of the results reaches the table: the row of its key
      has its feature as a column. */
  lemma EveryCellHasItsRow(results: seq<seq<EntropyCell>>, t: int, c: EntropyCell)
    requires 0 <= t < |results| && c in results[t]
    ensures GenerateEntropyTable(results).Ok?
    ensures exists i :: 0 <= i < |GenerateEntropyTable(results).value|
                        && GenerateEntropyTable(results).value[i].key == KeyOf(c)
                        && c.feature in GenerateEntropyTable(results).value[i].values
  {
    var cells := Flatten(results);
    assert c in cells;
    var table := GenerateEntropyTable(results).value;
    var n :| 0 <= n < |cells| && cells[n] == c;
    assert KeysOf(cells)[n] == KeyOf(c);
    assert KeyOf(c) in KeysOf(cells);
    var i :| 0 <= i < |table| && table[i].key == KeyOf(c);
    assert c.feature in FeaturesOf(cells, KeyOf(c));
  }

  /** A key and feature with a single cell keep that cell's entropy unchanged. */
  lemma SingleCellKept(results: seq<seq<EntropyCell>>, c: EntropyCell)
    requires Matching(Flatten(results), KeyOf(c), c.feature) == [c]
    ensures PivotRow(Flatten(results), KeyOf(c)).values[c.feature] == c.value
  {
    var cells := Flatten(results);
    assert c in cells && KeyOf(c) == KeyOf(c);
    assert c.feature in FeaturesOf(cells, KeyOf(c));
    assert ValuesOf([c]) == [c.value];
  }
}
