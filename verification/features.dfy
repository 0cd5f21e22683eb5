/** feature_calculation_utils.py: the per-subcube feature rows of one
    (sample, contrast adjustment, division) image, the image mapping the
    workers share, and the flattening of the workers' results. */
module Features {
  import opened Common
  import opened Volumes
  import opened Grid
  import Stats

  /** The statistics of the operation table at lines 65-74. */
  datatype Statistic =
    | StatMean | StatStd | StatMin | StatMax
    | StatSkewness | StatKurtosis | StatVariation | StatMedian

  function NameOf(s: Statistic): string {
    match s
    case StatMean => "mean"
    case StatStd => "std"
    case StatMin => "min"
    case StatMax => "max"
    case StatSkewness => "skewness"
    case StatKurtosis => "kurtosis"
    case StatVariation => "variation coefficient"
    case StatMedian => "median"
  }

  /** `feature in feature_operations` and the lookup that follows: a name is
      recognised exactly when it is the table key of some statistic. */
  function StatisticOf(name: string): (r: Option<Statistic>)
    ensures r.Some? ==> NameOf(r.value) == name
    ensures r.None? ==> forall s: Statistic :: NameOf(s) != name
  {
    if name == "mean" then Some(StatMean)
    else if name == "std" then Some(StatStd)
    else if name == "min" then Some(StatMin)
    else if name == "max" then Some(StatMax)
    else if name == "skewness" then Some(StatSkewness)
    else if name == "kurtosis" then Some(StatKurtosis)
    else if name == "variation coefficient" then Some(StatVariation)
    else if name == "median" then Some(StatMedian)
    else None
  }

  /** Standard deviation, skewness, kurtosis and the coefficient of variation are
      floating-point library calls (numpy, scipy); the model receives them as a
      function. */
  type Moments = (Statistic, seq<real>) -> real

  /** One statistic of one flattened subcube. Minimum, maximum, median and mean
      are computed exactly. */
  function Evaluate(s: Statistic, part: seq<real>, moments: Moments): (v: real)
    requires |part| > 0
    ensures s == StatMin ==> v in part && forall i :: 0 <= i < |part| ==> v <= part[i]
    ensures s == StatMax ==> v in part && forall i :: 0 <= i < |part| ==> part[i] <= v
    ensures s == StatMedian || s == StatMean ==> Stats.SeqMin(part) <= v <= Stats.SeqMax(part)
    ensures s in {StatStd, StatSkewness, StatKurtosis, StatVariation} ==> v == moments(s, part)
  {
    match s
    case StatMean => Stats.Mean(part)
    case StatMin => Stats.SeqMin(part)
    case StatMax => Stats.SeqMax(part)
    case StatMedian => Stats.Median(part)
    case _ => moments(s, part)
  }

  /** Lines 76-78: the recognised names of `feature_list`, in list order;
      unknown names are skipped. */
  function Recognised(names: seq<string>): (r: seq<Statistic>)
    ensures |r| <= |names|
    ensures |r| == |names| <==> forall i :: 0 <= i < |names| ==> StatisticOf(names[i]).Some?
  {
    if |names| == 0 then []
    else
      var front := names[..|names| - 1];
      var rest := Recognised(front);
      assert forall i :: 0 <= i < |front| ==> front[i] == names[i];
      match StatisticOf(names[|names| - 1])
      case Some(s) => rest + [s]
      case None => rest
  }

  /** A statistic is computed exactly when some name of the list denotes it. */
  lemma {:induction false} RecognisedMembers(names: seq<string>, s: Statistic)
    ensures s in Recognised(names) <==> exists i :: 0 <= i < |names| && StatisticOf(names[i]) == Some(s)
  {
    if |names| > 0 {
      var front := names[..|names| - 1];
      var last := names[|names| - 1];
      RecognisedMembers(front, s);
      if exists i :: 0 <= i < |names| && StatisticOf(names[i]) == Some(s) {
        var i :| 0 <= i < |names| && StatisticOf(names[i]) == Some(s);
        if i < |front| {
          assert StatisticOf(front[i]) == Some(s);
        }
      }
      if s in Recognised(front) {
        var i :| 0 <= i < |front| && StatisticOf(front[i]) == Some(s);
        assert names[i] == front[i];
      }
    }
  }

  /** Recognising a concatenation recognises each part in turn, so the values of
      a row follow `feature_list` order. */
  lemma {:induction false} RecognisedAppend(a: seq<string>, b: seq<string>)
    ensures Recognised(a + b) == Recognised(a) + Recognised(b)
  {
    if |b| > 0 {
      var b' := b[..|b| - 1];
      var last := b[|b| - 1];
      assert (a + b)[..|a + b| - 1] == a + b';
      assert (a + b)[|a + b| - 1] == last;
      RecognisedAppend(a, b');
      var tail := match StatisticOf(last) case Some(s) => [s] case None => [];
      assert Recognised(a + b) == Recognised(a + b') + tail;
      assert Recognised(b) == Recognised(b') + tail;
      ConcatAssoc(Recognised(a), Recognised(b'), tail);
    } else {
      assert a + b == a;
    }
  }

  function FeatureValues(names: seq<string>, part: seq<real>, moments: Moments): (vs: seq<real>)
    requires |part| > 0
    ensures |vs| == |Recognised(names)|
    ensures forall t :: 0 <= t < |vs| ==> vs[t] == Evaluate(Recognised(names)[t], part, moments)
  {
    var stats := Recognised(names);
    seq(|stats|, t requires 0 <= t < |stats| => Evaluate(stats[t], part, moments))
  }

  /** For every subcube, the reported minimum is a voxel of the subcube no larger
      than any voxel, the maximum one no smaller, and the median lies between. */
  lemma PartOrderStatistics(part: seq<real>, moments: Moments)
    requires |part| > 0
    ensures var lo := Evaluate(StatMin, part, moments);
            var hi := Evaluate(StatMax, part, moments);
            var med := Evaluate(StatMedian, part, moments);
            && (forall i :: 0 <= i < |part| ==> lo <= part[i] <= hi)
            && lo <= med <= hi
  {
  }

  /** One row of the feature table: `[sample, contrast_adjustment, division,
      subcube_index] + values`. */
  datatype FeatureRow = FeatureRow(sample: string, adjustment: bool, division: int, subcube: int, values: seq<real>)

  function Width(row: FeatureRow): nat {
    4 + |row.values|
  }

  lemma CubePositive(seg: int)
    requires seg > 0
    ensures seg * (seg * seg) > 0
  {
    MulMonotone(seg, 1, seg);
    MulMonotone(seg, 1, seg * seg);
  }

  /** Row n of a grid is the row of the subcube `Cell(n, division)`. */
  predicate IsRowOf(row: FeatureRow, n: int, sample: string, adjustment: bool, division: int,
                    im: Image, seg: int, names: seq<string>, moments: Moments)
  {
    && division > 0
    && row.sample == sample && row.adjustment == adjustment && row.division == division
    && row.subcube == n
    && Fits(im, seg, Cell(n, division))
    && (CubePositive(seg);
        row.values == FeatureValues(names, Part(im, seg, Cell(n, division)), moments))
  }

  /** The rows `compute_image_statistics` emits carry one value per
      recognised name. */
  lemma GridRowsWidth(rows: seq<FeatureRow>, sample: string, adjustment: bool, division: int,
                      im: Image, seg: int, names: seq<string>, moments: Moments)
    requires forall n :: 0 <= n < |rows| ==> IsRowOf(rows[n], n, sample, adjustment, division, im, seg, names, moments)
    ensures forall n :: 0 <= n < |rows| ==> |rows[n].values| == |Recognised(names)|
  {
    forall n | 0 <= n < |rows| ensures |rows[n].values| == |Recognised(names)| {
      assert IsRowOf(rows[n], n, sample, adjustment, division, im, seg, names, moments);
    }
  }

  lemma CellFits(im: Image, seg: int, bands: int, division: int, n: int)
    requires seg > 0 && division > 0
    requires seg * bands <= im.zSize && division * seg <= im.xSize && division * seg <= im.ySize
    requires 0 <= n < bands * (division * division)
    ensures Fits(im, seg, Cell(n, division))
  {
    CellToIndex(n, division, bands);
    var c := Cell(n, division);
    MulMonotone(bands, c.0 + 1, seg);
    MulMonotone(division, c.1 + 1, seg);
    MulMonotone(division, c.2 + 1, seg);
  }

  /** Rows 0 .. |rows|-1 of the grid. */
  predicate RowsOf(rows: seq<FeatureRow>, sample: string, adjustment: bool, division: int,
                   im: Image, seg: int, names: seq<string>, moments: Moments)
  {
    forall n :: 0 <= n < |rows| ==> IsRowOf(rows[n], n, sample, adjustment, division, im, seg, names, moments)
  }

  lemma ExtendRows(rows: seq<FeatureRow>, row: FeatureRow, sample: string, adjustment: bool, division: int,
                   im: Image, seg: int, names: seq<string>, moments: Moments)
    requires RowsOf(rows, sample, adjustment, division, im, seg, names, moments)
    requires IsRowOf(row, |rows|, sample, adjustment, division, im, seg, names, moments)
    ensures RowsOf(rows + [row], sample, adjustment, division, im, seg, names, moments)
  {
    var r := rows + [row];
    forall n | 0 <= n < |r|
      ensures IsRowOf(r[n], n, sample, adjustment, division, im, seg, names, moments)
    {
      if n < |rows| {
        assert r[n] == rows[n];
      }
    }
  }

  /** The row of subcube (i, j, k), at its place in the output. */
  function GridRow(sample: string, adjustment: bool, division: int, im: Image, seg: int, bands: int,
                   names: seq<string>, moments: Moments, i: int, j: int, k: int): (row: FeatureRow)
    requires seg > 0 && division > 0 && 0 <= i < bands && 0 <= j < division && 0 <= k < division
    requires seg * bands <= im.zSize && division * seg <= im.xSize && division * seg <= im.ySize
    ensures IsRowOf(row, SubcubeIndex(i, j, k, division), sample, adjustment, division, im, seg, names, moments)
  {
    var index := SubcubeIndex(i, j, k, division);
    IndexToCell(i, j, k, division, bands);
    CellFits(im, seg, bands, division, index);
    CubePositive(seg);
    FeatureRow(sample, adjustment, division, index, FeatureValues(names, Part(im, seg, (i, j, k)), moments))
  }

  lemma NextColumn(i: int, j: int, d: int)
    ensures i * (d * d) + j * d + d == i * (d * d) + (j + 1) * d
  {
  }

  lemma NextBand(i: int, d: int)
    ensures i * (d * d) + d * d == (i + 1) * (d * d)
  {
  }

  /** `compute_image_statistics`: one row per subcube of the grid, in loop order,
      row n describing subcube n. A zero division or a segment size of zero
      raises; a negative division yields no rows. */
  method ComputeImageStatistics(sample: string, adjustment: bool, division: int, im: Image,
                                names: seq<string>, moments: Moments)
    returns (r: Result<seq<FeatureRow>>)
    ensures r.Err? <==> GridLayout(im.zSize, im.xSize, im.ySize, division).Err?
    ensures r.Err? ==> r.error == ZeroDivision
    ensures r.Ok? && division < 0 ==> r.value == []
    ensures r.Ok? && division > 0 ==>
              var L := GridLayout(im.zSize, im.xSize, im.ySize, division).value;
              && |r.value| == L.bandsZ * (division * division)
              && forall n :: 0 <= n < |r.value| ==>
                   IsRowOf(r.value[n], n, sample, adjustment, division, im, L.segment, names, moments)
  {
    var layout :- GridLayout(im.zSize, im.xSize, im.ySize, division);
    var seg := layout.segment;
    var bands := layout.bandsZ;
    var rows: seq<FeatureRow> := [];
    var i := 0;
    while i < bands
      invariant 0 <= i <= Max(0, bands)  // a negative division gives negative bands
      invariant division < 0 ==> rows == []
      invariant division > 0 ==> |rows| == i * (division * division)
      invariant RowsOf(rows, sample, adjustment, division, im, seg, names, moments)
    {
      var j := 0;
      while j < division
        invariant 0 <= j <= division
        invariant |rows| == i * (division * division) + j * division
        invariant RowsOf(rows, sample, adjustment, division, im, seg, names, moments)
      {
        var k := 0;
        while k < division
          invariant 0 <= k <= division
          invariant |rows| == i * (division * division) + j * division + k
          invariant RowsOf(rows, sample, adjustment, division, im, seg, names, moments)
        {
          var row := GridRow(sample, adjustment, division, im, seg, bands, names, moments, i, j, k);
          ExtendRows(rows, row, sample, adjustment, division, im, seg, names, moments);
          rows := rows + [row];
          k := k + 1;
        }
        NextColumn(i, j, division);
        j := j + 1;
      }
      NextBand(i, division);
      i := i + 1;
    }
    return Ok(rows);
  }

  /** An entry of `sample_images` for this sample and adjustment. */
  predicate Matches<V>(t: (string, V, bool), sample: string, adjustment: bool) {
    t.0 == sample && t.2 == adjustment
  }

  /** The image of the last entry of `images` for this sample and adjustment. */
  function LastImage<V(==)>(images: seq<(string, V, bool)>, sample: string, adjustment: bool): (r: Option<V>)
    ensures r.Some? <==> exists i :: 0 <= i < |images| && Matches(images[i], sample, adjustment)
    ensures r.Some? ==> exists i :: 0 <= i < |images| && images[i] == (sample, r.value, adjustment)
                          && forall i' :: i < i' < |images| ==> !Matches(images[i'], sample, adjustment)
  {
    if |images| == 0 then None
    else
      var last := images[|images| - 1];
      var front := images[..|images| - 1];
      if Matches(last, sample, adjustment) then
        assert images[|images| - 1] == (sample, last.1, adjustment);
        Some(last.1)
      else
        var r := LastImage(front, sample, adjustment);
        assert forall i :: 0 <= i < |front| ==> front[i] == images[i];
        if r.Some? then
          var i :| 0 <= i < |front| && front[i] == (sample, r.value, adjustment)
                   && forall i' :: i < i' < |front| ==> !Matches(front[i'], sample, adjustment);
          assert images[i] == front[i];
          r
        else r
  }

  /** The inner loop of lines 26-28 for one division. */
  function AddImages<V(==)>(m: map<(string, bool, int), V>, images: seq<(string, V, bool)>, division: int): (r: map<(string, bool, int), V>)
    ensures forall key :: key in r <==> key in m || (key.2 == division && LastImage(images, key.0, key.1).Some?)
    ensures forall key :: key in r ==>
              r[key] == if key.2 == division && LastImage(images, key.0, key.1).Some?
                        then LastImage(images, key.0, key.1).value else m[key]
  {
    if |images| == 0 then m
    else
      var front := images[..|images| - 1];
      var last := images[|images| - 1];
      AddImages(m, front, division)[(last.0, last.2, division) := last.1]
  }

  /** `generate_pool_dict`: every division is paired with every image, keyed by
      (sample, adjustment, division); a later image with the same sample and
      adjustment overwrites an earlier one. */
  function PoolDict<V(==)>(images: seq<(string, V, bool)>, divisions: seq<int>): (m: map<(string, bool, int), V>)
    ensures forall key :: key in m <==> key.2 in divisions && LastImage(images, key.0, key.1).Some?
    ensures forall key :: key in m ==> LastImage(images, key.0, key.1) == Some(m[key])
  {
    if |divisions| == 0 then map[]
    else
      var front := divisions[..|divisions| - 1];
      var d := divisions[|divisions| - 1];
      AddImages(PoolDict(images, front), images, d)
  }

  function TotalRows(results: seq<seq<FeatureRow>>): nat {
    if |results| == 0 then 0 else TotalRows(results[..|results| - 1]) + |results[|results| - 1]|
  }

  /** Line 104: the worker results concatenated in submission order. */
  function Concat(results: seq<seq<FeatureRow>>): (rows: seq<FeatureRow>)
    ensures |rows| == TotalRows(results)
  {
    if |results| == 0 then [] else Concat(results[..|results| - 1]) + results[|results| - 1]
  }

  /** Worker t's rows sit in the concatenation right after the rows of all earlier
      workers, unchanged and in order. */
  lemma {:induction false} ConcatBlock(results: seq<seq<FeatureRow>>, t: int)
    requires 0 <= t < |results|
    ensures TotalRows(results[..t]) + |results[t]| <= TotalRows(results)
    ensures Concat(results)[TotalRows(results[..t]) .. TotalRows(results[..t]) + |results[t]|] == results[t]
  {
    var front := results[..|results| - 1];
    assert Concat(results) == Concat(front) + results[|results| - 1];
    if t == |results| - 1 {
      assert results[..t] == front;
    } else {
      assert front[..t] == results[..t];
      assert front[t] == results[t];
      ConcatBlock(front, t);
      var lo := TotalRows(results[..t]);
      var hi := lo + |results[t]|;
      assert hi <= |Concat(front)|;
      assert Concat(results)[lo..hi] == Concat(front)[lo..hi];
    }
  }

  /** The widest row: pandas sizes the table by it and pads shorter rows. */
  function MaxWidth(rows: seq<FeatureRow>): (w: nat)
    ensures forall i :: 0 <= i < |rows| ==> Width(rows[i]) <= w
    ensures |rows| > 0 ==> exists i :: 0 <= i < |rows| && Width(rows[i]) == w
  {
    if |rows| == 0 then 0
    else
      var rest := MaxWidth(rows[..|rows| - 1]);
      assert forall i :: 0 <= i < |rows| - 1 ==> rows[..|rows| - 1][i] == rows[i];
      if Width(rows[|rows| - 1]) >= rest then Width(rows[|rows| - 1]) else rest
  }

  /** `export_features`: the concatenated rows under the header
      `[sample, contrast_adjustment, division, subcube] + feature_list`. pandas
      refuses when the widest row is not exactly as wide as the header. The
      `sample` argument is not used. */
  function ExportFeatures(results: seq<seq<FeatureRow>>, sample: string, names: seq<string>): (r: Result<seq<FeatureRow>>)
    ensures r.Ok? ==> r.value == Concat(results)
    ensures r.Err? ==> r.error == ColumnMismatch
    ensures r.Ok? <==>
              var rows := Concat(results);
              |rows| == 0 ||
              ((forall i :: 0 <= i < |rows| ==> Width(rows[i]) <= 4 + |names|)
               && exists i :: 0 <= i < |rows| && Width(rows[i]) == 4 + |names|)
  {
    var rows := Concat(results);
    if |rows| > 0 && MaxWidth(rows) != 4 + |names| then Err(ColumnMismatch)
    else Ok(rows)
  }

  /** When every row has one value per recognised name, as the grid rows do, the
      export succeeds exactly when every name is recognised (or there is no row):
      a single unknown feature name makes it fail. */
  lemma ExportNeedsKnownNames(results: seq<seq<FeatureRow>>, sample: string, names: seq<string>)
    requires forall i :: 0 <= i < |Concat(results)| ==> |Concat(results)[i].values| == |Recognised(names)|
    ensures ExportFeatures(results, sample, names).Ok? <==>
              |Concat(results)| == 0 || forall i :: 0 <= i < |names| ==> StatisticOf(names[i]).Some?
  {
  }
}
