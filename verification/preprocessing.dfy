/** The discrete parts of image_preprocessing_utils.py around the ROI: expanding
    the dataset per contrast option, naming the sample, calibrating the crop,
    and choosing the Z positions used to estimate the calibration references. */
module Preprocess {
  import opened Common
  import opened Volumes
  import opened RoiBounds

  /** One row of the per-sample dataset: the scan path, its calibration
      references and its ROI bounds. */
  datatype DatasetRow = DatasetRow(dataset: string, voidmean: real, rockmedian: real, bounds: Bounds)

  /** A dataset row with its `contrast_adjustment` column set. */
  datatype CropRow = CropRow(info: DatasetRow, adjustment: bool)

  function Tag(rows: seq<DatasetRow>, adjustment: bool): (r: seq<CropRow>)
    ensures |r| == |rows|
    ensures forall i :: 0 <= i < |rows| ==> r[i] == CropRow(rows[i], adjustment)
  {
    seq(|rows|, i requires 0 <= i < |rows| => CropRow(rows[i], adjustment))
  }

  /** Position n of an expansion holds dataset row n mod |rows| with option
      n div |rows|. */
  predicate ExpandedAt(r: seq<CropRow>, rows: seq<DatasetRow>, options: seq<bool>, n: int)
    requires 0 <= n < |r| == |options| * |rows|
  {
    && 0 <= n % |rows| < |rows| && 0 <= n / |rows| < |options|
    && r[n] == CropRow(rows[n % |rows|], options[n / |rows|])
  }

  lemma ExpandedTail(r: seq<CropRow>, rows: seq<DatasetRow>, options: seq<bool>, n: int)
    requires |options| > 0 && |r| == |options| * |rows|
    requires (|options| - 1) * |rows| <= n < |r|
    requires r[n] == CropRow(rows[n - (|options| - 1) * |rows|], options[|options| - 1])
    ensures ExpandedAt(r, rows, options, n)
  {
    DivModUnique(n, |rows|, |options| - 1, n - (|options| - 1) * |rows|);
  }

  /** The concatenation of one copy of the dataset per option, in option
      order, each copy carrying that option. */
  function Expansion(rows: seq<DatasetRow>, options: seq<bool>): (r: seq<CropRow>)
    ensures |r| == |options| * |rows|
    ensures forall n :: 0 <= n < |r| ==> ExpandedAt(r, rows, options, n)
  {
    if |options| == 0 then []
    else
      var k := |options| - 1;
      var front := Expansion(rows, options[..k]);
      var block := Tag(rows, options[k]);
      var r := front + block;
      assert |r| == |options| * |rows| by {
        assert |options| * |rows| == k * |rows| + |rows|;
      }
      assert forall n :: 0 <= n < |r| ==> ExpandedAt(r, rows, options, n) by {
        forall n | 0 <= n < |r|
          ensures ExpandedAt(r, rows, options, n)
        {
          if n < |front| {
            assert ExpandedAt(front, rows, options[..k], n);
          } else {
            assert r[n] == block[n - |front|];
            ExpandedTail(r, rows, options, n);
          }
        }
      }
      r
  }

  /** `generate_expanded_dataset`: the expansion of the dataset over the
      options. With no option the list handed to `pd.concat` is empty, and
      pandas raises ValueError ("No objects to concatenate"). */
  function ExpandDataset(rows: seq<DatasetRow>, options: seq<bool>): (r: Result<seq<CropRow>>)
    ensures r.Err? <==> |options| == 0
    ensures r.Err? ==> r.error == ValueError
    ensures r.Ok? ==> |r.value| == |options| * |rows|
    ensures r.Ok? ==> forall n :: 0 <= n < |r.value| ==> ExpandedAt(r.value, rows, options, n)
  {
    if |options| == 0 then Err(ValueError) else Ok(Expansion(rows, options))
  }

  /** Block k of the expansion is the whole dataset with option k. */
  lemma ExpandedBlock(rows: seq<DatasetRow>, options: seq<bool>, k: nat)
    requires k < |options|
    ensures ExpandDataset(rows, options).Ok?
    ensures (k + 1) * |rows| <= |ExpandDataset(rows, options).value|
    ensures ExpandDataset(rows, options).value[k * |rows| .. (k + 1) * |rows|] == Tag(rows, options[k])
  {
    var r := Expansion(rows, options);
    MulMonotone(|options|, k + 1, |rows|);
    assert (k + 1) * |rows| == k * |rows| + |rows|;
    var block := r[k * |rows| .. (k + 1) * |rows|];
    var tag := Tag(rows, options[k]);
    forall i | 0 <= i < |rows|
      ensures block[i] == tag[i]
    {
      ExpandedEntry(rows, options, k, i);
    }
  }

  /** Entry i of block k is dataset row i with option k. */
  lemma ExpandedEntry(rows: seq<DatasetRow>, options: seq<bool>, k: nat, i: nat)
    requires k < |options| && i < |rows|
    ensures k * |rows| + i < |Expansion(rows, options)|
    ensures Expansion(rows, options)[k * |rows| + i] == CropRow(rows[i], options[k])
  {
    var n := k * |rows| + i;
    MulMonotone(|options|, k + 1, |rows|);
    DivModUnique(n, |rows|, k, i);
    assert ExpandedAt(Expansion(rows, options), rows, options, n);
  }

  /** Python's `s.split('/')[-1]`: the longest suffix free of '/'. */
  function LastSegment(s: string): (r: string)
    ensures '/' !in r
    ensures |r| <= |s| && r == s[|s| - |r|..]
    ensures |r| < |s| ==> s[|s| - |r| - 1] == '/'
  {
    if |s| == 0 || s[|s| - 1] == '/' then ""
    else LastSegment(s[..|s| - 1]) + [s[|s| - 1]]
  }

  /** Line 42: the last path segment without its last three characters (the
      `.nc` extension); shorter segments give the empty name. */
  function SampleName(path: string): (r: string)
    ensures '/' !in r
    ensures var seg := LastSegment(path);
            if |seg| >= 3 then |r| + 3 == |seg| && r == seg[..|r|] else r == ""
  {
    var seg := LastSegment(path);
    if |seg| >= 3 then seg[..|seg| - 3] else ""
  }

  lemma LastSegmentOfJoin(dir: string, file: string)
    requires '/' !in file
    ensures LastSegment(dir + "/" + file) == file
  {
    var s := dir + "/" + file;
    var r := LastSegment(s);
    assert s[|s| - |file| - 1] == '/';
    assert forall i :: 0 <= i < |file| ==> s[|s| - |file| + i] == file[i];
    assert r == s[|s| - |file|..];
  }

  /** The name of `dir/name.nc` is `name`. */
  lemma SampleNameOfNcPath(dir: string, name: string)
    requires '/' !in name
    ensures SampleName(dir + "/" + name + ".nc") == name
  {
    assert dir + "/" + name + ".nc" == dir + "/" + (name + ".nc");
    LastSegmentOfJoin(dir, name + ".nc");
    assert (name + ".nc")[..|name|] == name;
  }

  /** numpy's `clip`. */
  function Clip(x: real, lo: real, hi: real): (r: real)
    requires lo <= hi
    ensures lo <= r <= hi
    ensures lo <= x <= hi ==> r == x
    ensures x < lo ==> r == lo
    ensures hi < x ==> r == hi
  {
    if x < lo then lo else if hi < x then hi else x
  }

  const Full: real := 65535.0
  const Half: real := 32768.0

  /** Lines 52-54 for one voxel: shift by the void mean, scale the rock median
      to 32768, clip to the 16-bit range. */
  function CalibrateVoxel(v: real, voidmean: real, rockmedian: real): (r: real)
    requires rockmedian > 0.0
    ensures 0.0 <= r <= Full
    ensures v <= voidmean ==> r == 0.0
    ensures v == voidmean + rockmedian ==> r == Half
    ensures v >= voidmean + 2.0 * rockmedian ==> r == Full
  {
    ScaleFacts((v - voidmean) * Half, rockmedian);
    Clip((v - voidmean) * Half / rockmedian, 0.0, Full)
  }

  lemma ScaleMonotone(a: real, b: real, m: real)
    requires m > 0.0 && a <= b
    ensures a / m <= b / m
  {
    var d := (b - a) / m;
    assert d * m == b - a;
    assert b / m == a / m + d;
  }

  lemma ScaleFacts(a: real, m: real)
    requires m > 0.0
    ensures a <= 0.0 ==> a / m <= 0.0
    ensures a == Half * m ==> a / m == Half
    ensures a >= 2.0 * Half * m ==> a / m >= 2.0 * Half
  {
    if a <= 0.0 {
      ScaleMonotone(a, 0.0, m);
    }
    if a >= 2.0 * Half * m {
      ScaleMonotone(2.0 * Half * m, a, m);
    }
  }

  /** Calibration keeps the order of intensities. */
  lemma CalibrateMonotone(v: real, w: real, voidmean: real, rockmedian: real)
    requires rockmedian > 0.0 && v <= w
    ensures CalibrateVoxel(v, voidmean, rockmedian) <= CalibrateVoxel(w, voidmean, rockmedian)
  {
    ScaleMonotone((v - voidmean) * Half, (w - voidmean) * Half, rockmedian);
  }

  /** Lines 51-54 over a whole crop. */
  function CalibrateImage(im: Image, voidmean: real, rockmedian: real): (r: Image)
    requires rockmedian > 0.0
    ensures r.zSize == im.zSize && r.xSize == im.xSize && r.ySize == im.ySize
    ensures forall a, b, c :: InBounds(im, a, b, c) ==>
              r.data[a][b][c] == CalibrateVoxel(im.data[a][b][c], voidmean, rockmedian)
    ensures forall a, b, c :: InBounds(im, a, b, c) ==> 0.0 <= r.data[a][b][c] <= Full
  {
    Volume(im.zSize, im.xSize, im.ySize,
      seq(|im.data|, a requires 0 <= a < |im.data| =>
        seq(|im.data[a]|, b requires 0 <= b < |im.data[a]| =>
          seq(|im.data[a][b]|, c requires 0 <= c < |im.data[a][b]| =>
            CalibrateVoxel(im.data[a][b][c], voidmean, rockmedian)))))
  }

  /** A slice bound as Python reads it on an axis of length n: a negative
      bound counts from the end. */
  function FromEnd(bound: int, n: nat): int {
    if bound < 0 then bound + n else bound
  }

  /** Whether Python's `[start:stop]` on an axis of length n selects index i:
      it is at or after the start and before the stop, each counted from the
      end when negative. */
  predicate Selects(n: nat, start: int, stop: int, i: int) {
    0 <= i < n && FromEnd(start, n) <= i < FromEnd(stop, n)
  }

  predicate InRange(r: (nat, nat), i: int) {
    r.0 <= i < r.1
  }

  function Clamp(i: int, n: nat): (c: nat)
    ensures c <= n
    ensures 0 <= i <= n ==> c == i
  {
    if i < 0 then 0 else if i > n then n else i
  }

  /** Python's `[start:stop]` on an axis of length n as the half-open range
      of the indices it selects. Out-of-range bounds select less instead of
      failing. */
  function SliceRange(n: nat, start: int, stop: int): (r: (nat, nat))
    ensures r.0 <= r.1 <= n
    ensures forall i :: InRange(r, i) <==> Selects(n, start, stop, i)
    ensures 0 <= start <= stop <= n ==> r == (start, stop)
  {
    var lo := Clamp(FromEnd(start, n), n);
    var hi := Clamp(FromEnd(stop, n), n);
    (lo, if hi < lo then lo else hi)
  }

  /** The box of a scan whose corner is (z0, x0, y0) and whose extents are
      (dz, dx, dy). */
  function Window(scan: Image, z0: nat, x0: nat, y0: nat, dz: nat, dx: nat, dy: nat): (r: Image)
    requires z0 + dz <= scan.zSize && x0 + dx <= scan.xSize && y0 + dy <= scan.ySize
    ensures r.zSize == dz && r.xSize == dx && r.ySize == dy
    ensures forall a, p, c :: InBounds(r, a, p, c) ==>
              InBounds(scan, z0 + a, x0 + p, y0 + c) && r.data[a][p][c] == At(scan, z0 + a, x0 + p, y0 + c)
  {
    var data := seq(dz, a requires 0 <= a < dz =>
                  seq(dx, p requires 0 <= p < dx =>
                    seq(dy, c requires 0 <= c < dy => scan.data[z0 + a][x0 + p][y0 + c])));
    assert WellShaped(Volume(dz, dx, dy, data));
    Volume(dz, dx, dy, data)
  }

  /** Line 48: `microtom[int(z_ini):int(z_fin), x_ini:x_fin, y_ini:y_fin]`,
      with Python's slice semantics on every axis and `int()` truncating the Z
      bounds. */
  function Crop(scan: Image, b: Bounds): (r: Image)
    ensures var z := SliceRange(scan.zSize, Trunc(b.zIni), Trunc(b.zFin));
            var x := SliceRange(scan.xSize, b.xIni, b.xFin);
            var y := SliceRange(scan.ySize, b.yIni, b.yFin);
            && r.zSize == z.1 - z.0 && r.xSize == x.1 - x.0 && r.ySize == y.1 - y.0
            && forall a, p, c :: InBounds(r, a, p, c) ==>
                 InBounds(scan, z.0 + a, x.0 + p, y.0 + c)
                 && r.data[a][p][c] == At(scan, z.0 + a, x.0 + p, y.0 + c)
  {
    var z := SliceRange(scan.zSize, Trunc(b.zIni), Trunc(b.zFin));
    var x := SliceRange(scan.xSize, b.xIni, b.xFin);
    var y := SliceRange(scan.ySize, b.yIni, b.yFin);
    Window(scan, z.0, x.0, y.0, z.1 - z.0, x.1 - x.0, y.1 - y.0)
  }

  /** The automatic Z range of a 100-slice scan with a 106-voxel square is
      [-3, 103]. Python reads the negative start from the end, so the crop
      holds only the last three slices, where the square would call for 106. */
  lemma AutomaticZCropIsShallow(scan: Image, b: Bounds)
    requires scan.zSize == 100
    requires ResolveZ(100, None, None, 106) == Ok((b.zIni, b.zFin))
    ensures Crop(scan, b).zSize == 3
    ensures forall a, p, c :: InBounds(Crop(scan, b), a, p, c) ==> InBounds(scan, 97 + a, p + SliceRange(scan.xSize, b.xIni, b.xFin).0, c + SliceRange(scan.ySize, b.yIni, b.yFin).0)
  {
    ZIniCanBeNegative();
    assert Trunc(b.zIni) == -3 && Trunc(b.zFin) == 103;
    assert SliceRange(100, -3, 103) == (97, 100);
  }

  /** `load_and_preprocess_image`. Opening the netCDF file is I/O: `present`
      is whether the path exists and `scan` is its `microtom` variable. A
      missing file makes the function fall through and return nothing;
      otherwise the row's bounds cut the crop, which is calibrated when the
      row asks for it. */
  function LoadAndPreprocess(row: CropRow, present: bool, scan: Image): (r: Option<(string, Image, bool)>)
    requires row.adjustment ==> row.info.rockmedian > 0.0
    ensures r.None? <==> !present
    ensures r.Some? ==> r.value.0 == SampleName(row.info.dataset) && r.value.2 == row.adjustment
    ensures r.Some? && !row.adjustment ==> r.value.1 == Crop(scan, row.info.bounds)
    ensures r.Some? && row.adjustment ==>
              var crop := Crop(scan, row.info.bounds);
              && r.value.1.zSize == crop.zSize && r.value.1.xSize == crop.xSize && r.value.1.ySize == crop.ySize
              && forall a, b, c :: InBounds(crop, a, b, c) ==>
                   r.value.1.data[a][b][c] == CalibrateVoxel(crop.data[a][b][c], row.info.voidmean, row.info.rockmedian)
  {
    if !present then None
    else
      var crop := Crop(scan, row.info.bounds);
      var im := if row.adjustment then CalibrateImage(crop, row.info.voidmean, row.info.rockmedian) else crop;
      Some((SampleName(row.info.dataset), im, row.adjustment))
  }

  /** How many Z positions `get_info` draws. */
  const SampleCount: nat := 100

  /** `get_info`: 100 distinct positions drawn without replacement from the
      integers `int(z_i) ..= int(z_f)`, each paired with the file name. The random
      generator is replaced by `draws`: draw k picks index `draws[k] mod m` among
      the m candidates not yet taken. numpy refuses when fewer than 100
      candidates exist. */
  method ChoosePositions(filename: string, zI: real, zF: real, draws: seq<nat>) returns (r: Result<seq<(string, int)>>)
    requires |draws| == SampleCount
    ensures r.Err? <==> Trunc(zF) - Trunc(zI) + 1 < SampleCount
    ensures r.Err? ==> r.error == PopulationTooSmall
    ensures r.Ok? ==> |r.value| == SampleCount
    ensures r.Ok? ==> forall n :: 0 <= n < |r.value| ==>
              r.value[n].0 == filename && Trunc(zI) <= r.value[n].1 <= Trunc(zF)
    ensures r.Ok? ==> forall m, n :: 0 <= m < n < |r.value| ==> r.value[m].1 != r.value[n].1
  {
    var lo := Trunc(zI);
    var hi := Trunc(zF);
    if hi - lo + 1 < SampleCount {
      return Err(PopulationTooSmall);
    }
    var pool := seq(hi - lo + 1, i => lo + i);
    var chosen: seq<(string, int)> := [];
    var k := 0;
    while k < SampleCount
      invariant 0 <= k <= SampleCount
      invariant |chosen| == k
      invariant |pool| == hi - lo + 1 - k
      invariant forall n :: 0 <= n < |pool| ==> lo <= pool[n] <= hi
      invariant forall m, n :: 0 <= m < n < |pool| ==> pool[m] != pool[n]
      invariant forall n :: 0 <= n < |chosen| ==> chosen[n].0 == filename && lo <= chosen[n].1 <= hi
      invariant forall m, n :: 0 <= m < n < |chosen| ==> chosen[m].1 != chosen[n].1
      invariant forall m, n :: 0 <= m < |chosen| && 0 <= n < |pool| ==> chosen[m].1 != pool[n]
    {
      var idx := draws[k] % |pool|;
      var p := pool[idx];
      chosen := chosen + [(filename, p)];
      pool := pool[..idx] + pool[idx + 1..];
      k := k + 1;
    }
    return Ok(chosen);
  }
}
