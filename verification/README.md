# Textural heterogeneity measure: a Dafny model of its discrete core

The pipeline this project models works like this:

- It reads micro-tomography volumes of rock plugs.
- It finds the plug's region of interest and crops it.
- It optionally calibrates grey levels against the void mean and the rock median.
- It cuts the crop into a grid of cubic subcubes and computes per-subcube statistics for several grid divisions.
- For each statistic, it computes the entropy over one sample's subcubes.
- It ranks that entropy, as a percentile, against a population of samples. Ranking is done within each (division, contrast adjustment) group.

The model covers the discrete bookkeeping around the numerics. It uses integers, sequences, maps and exact reals.

- `roi_bounds.dfy` (`RoiBounds`): the second half of `get_rectangle_bounds`.
  - It intersects the per-slice plug boxes and shrinks the result by the tolerance.
  - It centre-crops to a square.
  - It builds a centred Z range and applies the Z policy: explicit bounds, or automatic 10%..90% widening.
- `preprocessing.dfy` (`Preprocess`):
  - the expansion of the dataset per contrast option;
  - the sample name taken from the scan path;
  - the crop of the scan by the row's bounds, with Python's slice semantics;
  - the grey-level calibration with its clip;
  - the choice of 100 distinct Z positions in `get_info`.
- `stats.dfy` (`Stats`): exact minimum, maximum, median and mean of a flattened subcube.
- `grid.dfy` (`Grid`):
  - segment size and band count;
  - the row-major subcube index and its inverse;
  - the voxels each subcube reads.
- `features.dfy` (`Features`):
  - `compute_image_statistics`, as a method whose loops build one row per subcube;
  - the image mapping of `generate_pool_dict`;
  - the concatenation and width check of `export_features`.
- `entropy.dfy` (`Entropy`):
  - the value-count mass function of the discrete entropy branch;
  - the division/adjustment filter;
  - `calculate_sample_entropy` and `process_adjustment_division_feature`;
  - the pivot of `generate_entropy_df`.
- `rank.dfy` (`Rank`):
  - the replacement of a sample's rows in the population table;
  - the percentile rank with pandas' average tie method;
  - `calculate_sample_rank`.
- `cli_parse.dfy` (`CliParse`): the command-line converters of `parser_utils.py`. These are `str.split(',')`, `str.strip()`, `int()` on decimal literals, `str2bool` and the list converters.
- `defaults.dfy` (`Defaults`): the default `-feature_list` of `run_sample.py` and what it leads to at export (see "## Findings").
- `common.dfy` (`Common`) and `volumes.dfy` (`Volumes`) hold the shared pieces:
  - `Option` and `Result`, with the error kinds the source raises;
  - Python's floor division and float-to-int truncation;
  - the 3-D volume type.

Python exceptions become `Err` values of `Result`: the ones the source raises, and the `sys.exit` calls on too-small samples. The calls the model cannot see are parameters:

- the statistics library calls (standard deviation, skewness, kurtosis, coefficient of variation);
- both entropy estimators;
- the random generator of `get_info`.

A missing value (NaN) is an absent map entry or `None`.

## Behaviour of the code worth knowing

- The automatic Z range has no clamp, so it can start below slice 0: `RoiBounds.ZIniCanBeNegative`. Python then reads the negative start from the end of the scan. For a 100-slice scan with a 106-voxel square, the crop keeps only the last three slices: `Preprocess.AutomaticZCropIsShallow`.
- The percentile rank is pandas `rank(pct=True)` with its default average tie method. For L smaller and E equal values in a group of n, it is `100 * (L + (E + 1) / 2) / n`: `Rank.PercentRankIsAverageOrdinal`.
- `calculate_sample_rank` builds the updated population table but returns only the sample's rank rows. The updated table is not written back.
- `compute_image_statistics` skips unknown feature names silently. `export_features` then refuses the rows because they are narrower than the header: `Features.ExportNeedsKnownNames`.
- Any integer division is accepted. Zero raises ZeroDivision, and a negative division yields no rows.

## Model

| member | source | states |
|---|---|---|
| RoiBounds.Intersect | function/image_preprocessing_utils.py:141 | the intersection of two boxes lies inside both and contains every box inside both; it is empty exactly when no box fits inside both |
| RoiBounds.IntersectAll | function/image_preprocessing_utils.py:139-141 | no detected box fails with NoBoxDetected (indexing `[0]` of an empty list); otherwise the result lies inside every box and contains every common box, or no common box exists |
| RoiBounds.Shrink | function/image_preprocessing_utils.py:143-144 | the first shapely axis becomes the y interval and the second the x interval, each shrunk by `tol` at both ends |
| RoiBounds.CenterCrop | function/image_preprocessing_utils.py:150-153 | the cropped interval has the requested side, lies inside the original, and the end cut is the start cut or one more (floor/ceil split) |
| RoiBounds.SquareUp | function/image_preprocessing_utils.py:146-153 | after the crop both x and y extents equal `mindif`, the smaller of the two, and each interval stays inside its shrunk interval; the cut is split evenly, the end losing at most one voxel more than the start |
| RoiBounds.CentredZ | function/image_preprocessing_utils.py:155-162 | the Z range has extent exactly `mindif` for odd and even sides, `floor(mindif/2)` below the middle and the rest above |
| RoiBounds.ResolveZ | function/image_preprocessing_utils.py:164-195 | with both bounds given it fails iff `z_fin - z_ini < x_dif` and otherwise returns them unchanged; without them it never fails, and the range is `min(0.1*depth, z_i)`..`max(0.9*depth, z_f)`, covering both the centred range and 10%..90% of the depth |
| RoiBounds.RectangleBounds | function/image_preprocessing_utils.py:139-195 | NoBoxDetected iff no box; otherwise the boxes intersect, and with `s` their intersection shrunk by `tol`: the result is Ok iff the Z resolution for side `mindif(s)` is, its x and y extents are both `mindif(s)`, each centred in its shrunk interval (the end cut at most one voxel more than the start), and its Z ends are exactly the resolved ones; the square lies inside every box shrunk by `tol`; the Z extent is at least the side; SampleTooSmall happens only with explicit bounds, and there exactly when they are closer than the square's side |
| RoiBounds.ZIniCanBeNegative | function/image_preprocessing_utils.py:183-195 | with no clamp, a 100-slice volume with side 106 gets the automatic range [-3, 103], which starts below slice 0 |
| Preprocess.ExpandDataset | function/image_preprocessing_utils.py:69-77 | fails with ValueError iff there is no option, as `pd.concat` of an empty list does; otherwise, with N dataset rows, the expansion has N rows per option and position n holds dataset row `n mod N` with option `n div N` |
| Preprocess.ExpandedBlock | function/image_preprocessing_utils.py:69-77 | block k of the expansion is the whole dataset, unchanged, with `contrast_adjustment = options[k]` |
| Preprocess.SampleName | function/image_preprocessing_utils.py:42 | the name is the last `/`-segment of the path without its last three characters, or empty for a shorter segment, and holds no `/` |
| Preprocess.SampleNameOfNcPath | function/image_preprocessing_utils.py:42 | the name of `dir/name.nc` is `name` for every directory and every slash-free name |
| Preprocess.CalibrateVoxel | function/image_preprocessing_utils.py:52-54 | a calibrated voxel lies in [0, 65535]; at or below the void mean it is 0; at void mean plus rock median it is 32768; from void mean plus twice the rock median on it is 65535 |
| Preprocess.Clip | function/image_preprocessing_utils.py:54 | `np.clip` of one value lies in [lo, hi]; a value inside is kept, one below becomes lo and one above becomes hi |
| Preprocess.CalibrateMonotone | function/image_preprocessing_utils.py:52-54 | calibration keeps the order of intensities |
| Preprocess.CalibrateImage | function/image_preprocessing_utils.py:51-54 | the calibrated crop keeps its shape, every voxel is the calibration of the original voxel, and all lie in [0, 65535] |
| Preprocess.SliceRange | function/image_preprocessing_utils.py:48 | a Python slice of an axis selects exactly the indices at or after the start and before the stop, a negative bound counted from the end; bounds inside the axis select the range they name |
| Preprocess.Crop | function/image_preprocessing_utils.py:48 | each axis of the crop is the slice range of the row's bounds on that axis, the Z bounds truncated by `int()`; every voxel of the crop is the scan's voxel at the shifted position |
| Preprocess.AutomaticZCropIsShallow | function/image_preprocessing_utils.py:48 | the automatic range [-3, 103] of a 100-slice scan with a 106-voxel square crops the scan to its last three slices |
| Preprocess.LoadAndPreprocess | function/image_preprocessing_utils.py:41-56 | nothing is returned iff the file is missing; otherwise the result is the sample name, the adjustment flag, and the crop of the scan by the row's bounds: unchanged without adjustment, calibrated voxel by voxel with it |
| Preprocess.ChoosePositions | function/image_preprocessing_utils.py:211-213 | fails (too small a population) iff `int(z_f) - int(z_i) + 1 < 100`; otherwise 100 pairwise-distinct positions in `int(z_i)..int(z_f)`, each paired with the file name |
| Stats.SeqMin | function/feature_calculation_utils.py:68 | the minimum is an element no larger than any element |
| Stats.SeqMax | function/feature_calculation_utils.py:69 | the maximum is an element no smaller than any element |
| Stats.SortSeq | function/feature_calculation_utils.py:73 | the sorted values `median` works on are sorted and are a permutation of the input |
| Stats.Median | function/feature_calculation_utils.py:73 | the median lies between the minimum and the maximum |
| Stats.Mean | function/feature_calculation_utils.py:66 | the exact mean lies between the minimum and the maximum |
| Common.FloorDiv | function/feature_calculation_utils.py:51-52 | Python's `//`: the quotient q of a by b satisfies `b*q <= a < b*q + b` for positive b, and the mirrored bounds for negative b |
| Common.Trunc | function/image_preprocessing_utils.py:211 | Python's `int()` of a float truncates towards zero: the result lies on the same side of zero as x and within 1 of it |
| Grid.GridLayout | function/feature_calculation_utils.py:50-52 | division 0, or a segment size of 0 (`min(x,y) < d` for positive d), raises ZeroDivision; otherwise the segment size is the floor quotient `min(x,y) // d` and the band count is `z // segment` |
| Grid.IndexToCell | function/feature_calculation_utils.py:55-61 | every loop triple (i, j, k) gets an index `Grid.SubcubeIndex` (line 61) below `bands*d*d`, from which the cell is recovered |
| Grid.CellToIndex | function/feature_calculation_utils.py:55-61 | every index below `bands*d*d` is the `Grid.SubcubeIndex` of a grid cell, so the index is onto that range |
| Grid.IndexIncreasing | function/feature_calculation_utils.py:55-61 | triples in loop order get strictly increasing indices |
| Grid.Part | function/feature_calculation_utils.py:58-60 | a subcube slice holds `segment^3` values, each read from inside the image and inside that subcube |
| Grid.VoxelsDisjoint | function/feature_calculation_utils.py:58-60 | distinct subcubes read disjoint voxels, and a subcube reads each of its voxels once |
| Grid.GridCoverage | function/feature_calculation_utils.py:55-60 | every voxel below `bands*seg` in Z and `d*seg` in X and Y is read by exactly the subcube and offset its coordinates name |
| Grid.CubeWithinGrid | function/feature_calculation_utils.py:55-60 | no subcube reads past the last full segment on any axis |
| Features.StatisticOf | function/feature_calculation_utils.py:65-77 | a name is recognised exactly when it is the table key of a statistic, and then it names that statistic |
| Features.Evaluate | function/feature_calculation_utils.py:65-74 | min is an element no larger than any voxel, max one no smaller than any voxel; median and mean lie between them; the library statistics are the given functions |
| Features.Recognised | function/feature_calculation_utils.py:76-78 | at most one statistic per name, and one for every name exactly when every name is recognised |
| Features.RecognisedMembers | function/feature_calculation_utils.py:76-78 | a statistic is computed exactly when some name of the list denotes it |
| Features.RecognisedAppend | function/feature_calculation_utils.py:76-78 | recognising a concatenation recognises each part in turn, so the values follow `feature_list` order |
| Features.FeatureValues | function/feature_calculation_utils.py:76-78 | one value per recognised name, in list order, each the statistic of the part |
| Features.PartOrderStatistics | function/feature_calculation_utils.py:68-73 | for every part, min is at most every voxel, every voxel is at most max, and min is at most median, which is at most max |
| Features.ComputeImageStatistics | function/feature_calculation_utils.py:34-86 | fails with ZeroDivision exactly when the layout does; for a positive division it emits `bands*d*d` rows, row n tagged with sample, adjustment, division and index n, holding the recognised statistics of subcube `Cell(n)`; a negative division gives no rows |
| Features.LastImage | function/feature_calculation_utils.py:26-28 | an image exists for (sample, adjustment) iff some entry carries them, and it is the one of the last such entry |
| Features.AddImages | function/feature_calculation_utils.py:26-28 | the inner loop adds exactly the keys (sample, adjustment, division) of the images, each mapped to the last matching image, and keeps every other key |
| Features.PoolDict | function/feature_calculation_utils.py:24-28 | the key set is every division of the list crossed with every (sample, adjustment) of the images; a later image with the same key overwrites an earlier one |
| Features.Concat | function/feature_calculation_utils.py:104 | the flattened table has as many rows as the worker results together |
| Features.ConcatBlock | function/feature_calculation_utils.py:104 | worker t's rows sit unchanged and in order right after the rows of all earlier workers |
| Features.ExportFeatures | function/feature_calculation_utils.py:104-110 | the table is the flattened results; it is refused iff there are rows and the widest row is not exactly as wide as the header, four columns plus one per feature name |
| Features.ExportNeedsKnownNames | function/feature_calculation_utils.py:76-110 | for grid rows, export succeeds iff there is no row or every feature name is recognised: one unknown name makes it fail |
| Entropy.Pmf | function/rank_calculation_utils.py:24-25 | one mass per distinct value, its count over the column length, each in (0, 1] |
| Entropy.PmfSumsToOne | function/rank_calculation_utils.py:24-25 | the masses sum to 1 |
| Entropy.ConstantPmf | function/rank_calculation_utils.py:24-25 | a constant column has the single mass [1] |
| Entropy.EntropyOf | function/rank_calculation_utils.py:21-38 | max, min and median are fed their value-count masses, an empty column none; every other feature goes to the continuous estimator with its raw values, and an empty one fails with ValueError as `KernelDensity.fit` does |
| Entropy.FilterRows | function/rank_calculation_utils.py:83-87 | each row of the division and adjustment with no missing value is kept as often as it occurs; every other row is dropped |
| Entropy.FilterAppend | function/rank_calculation_utils.py:83-87 | filtering a concatenation filters each part in turn, so the kept rows keep their order |
| Entropy.FilterIdempotent | function/rank_calculation_utils.py:83-87 | filtering a filtered table changes nothing |
| Entropy.CalculateSampleEntropy | function/rank_calculation_utils.py:55-64 | fails with a missing-column error iff the feature is no column, and with ValueError iff it is a continuous feature over zero rows; otherwise a one-element list, tagged with sample, division, adjustment and feature, holding the entropy of the feature column |
| Entropy.ProcessCombination | function/rank_calculation_utils.py:81-98 | fails with a missing-column error iff the feature is no column, and with ValueError iff it is one but no row is kept (the scaler's `transform` of zero rows); otherwise one cell, tagged with the combination, holding the entropy of the feature over exactly the filtered rows |
| Entropy.PivotRow | function/rank_calculation_utils.py:114 | a key's row has as columns exactly the features its cells carry, each value the mean of that key's cells, between their minimum and maximum |
| Entropy.GenerateEntropyTable | function/rank_calculation_utils.py:112-114 | fails with KeyError on 'sample' iff no worker returned a cell; otherwise one row per distinct (sample, division, adjustment) of the cells, no key twice, every key present, each row its key's pivot |
| Entropy.Flatten | function/rank_calculation_utils.py:112 | a cell is in the flattened list iff some worker's list holds it |
| Entropy.PivotRows | function/rank_calculation_utils.py:114 | the pivot has one row per distinct (sample, division, adjustment) key of the cells, no key twice, and each row is that key's pivot, whose features are those of its cells and whose every value lies between the smallest and largest value of its cells |
| Entropy.EveryCellHasItsRow | function/rank_calculation_utils.py:112-114 | every entropy cell reaches the table: its key's row has its feature as a column |
| Entropy.SingleCellKept | function/rank_calculation_utils.py:114 | a key and feature with a single cell keep that cell's entropy unchanged |
| Rank.WithoutSample | function/rank_calculation_utils.py:134 | the kept rows all belong to other samples |
| Rank.WithSample | function/rank_calculation_utils.py:155 | the selected rows all belong to the sample |
| Rank.WithoutSampleCount | function/rank_calculation_utils.py:134 | every row of another sample is kept as often as it occurs, and no row of the sample |
| Rank.WithSampleCount | function/rank_calculation_utils.py:155 | every row of the sample is selected as often as it occurs, and no other row |
| Rank.UpdateTable | function/rank_calculation_utils.py:131-136 | the updated table is the old rows of other samples, in their old order and each as often as before, followed by the new rows |
| Rank.UpdateIdempotent | function/rank_calculation_utils.py:131-136 | submitting the same rows again, all carrying the sample's name, leaves the table unchanged, with no duplicate rows for that sample |
| Rank.SampleRowsAreIncoming | function/rank_calculation_utils.py:131-136 | after the update, the sample's rows are exactly the new rows, in order |
| Rank.GroupValues | function/rank_calculation_utils.py:144 | every non-missing value of the feature in the (division, adjustment) group takes part in the ranking |
| Rank.GroupValuesMultiplicity | function/rank_calculation_utils.py:143-145 | each value occurs among the ranked values exactly as often as rows of the group hold the feature with that value, so no value comes from outside the group |
| Rank.GroupSize | function/rank_calculation_utils.py:143-145 | the group size n of the rank is the number of rows of the group that hold the feature |
| Rank.OtherGroupsIgnored | function/rank_calculation_utils.py:144 | rows of other groups contribute no value to a group |
| Rank.PercentRank | function/rank_calculation_utils.py:143-146 | every rank lies in (0, 100], and is 100 iff the value is the unique maximum of its group |
| Rank.RankMonotone | function/rank_calculation_utils.py:143-146 | a smaller value gets a strictly smaller rank |
| Rank.PercentRankIsAverageOrdinal | function/rank_calculation_utils.py:143-146 | the rank is 100 times the mean ordinal position of the tied values over the group size: pandas' average method |
| Rank.RankOf | function/rank_calculation_utils.py:142-146 | a row has a rank for a feature iff it has a value, and the rank lies in (0, 100] |
| Rank.CalculateSampleRank | function/rank_calculation_utils.py:117-156 | an empty sample fails; otherwise it fails iff a feature is no column; the result is one row per row of the sample in the updated table, in order, carrying that row's key and the group percentile rank of every feature |
| Rank.RanksCoverIncomingRows | function/rank_calculation_utils.py:131-156 | when every new row carries the sample's name, the result has exactly one row per new row, with the same keys in the same order |
| CliParse.Split | function/parser_utils.py:43 | `split(',')` gives one comma-free piece more than there are commas, and joining the pieces with commas rebuilds the input |
| CliParse.SplitJoin | function/parser_utils.py:43 | splitting the comma-join of comma-free pieces recovers the pieces |
| CliParse.Strip | function/parser_utils.py:67 | the strip is the infix after the leading whitespace, with neither end whitespace |
| CliParse.StripRemovesSpace | function/parser_utils.py:67 | every character stripped away is whitespace |
| CliParse.StripKeepsInner | function/parser_utils.py:67 | a value with no whitespace at its ends, inner spaces and quotes included, is its own strip |
| CliParse.StripIdempotent | function/parser_utils.py:67 | stripping twice is stripping once |
| CliParse.Str2Bool | function/parser_utils.py:31 | true exactly for "True", "true", the integer 1 and the bool True (`True == 1`) |
| CliParse.ListOfBools | function/parser_utils.py:43 | one boolean per comma piece, true iff the unstripped piece is "True" or "true" |
| CliParse.ParseInt | function/parser_utils.py:55 | `int()` is defined exactly on the decimal literals (optional whitespace, optional sign, ASCII digits), and negative only with a leading minus; the whitespace skipped is `str.isspace()` without the separators U+001C..U+001F |
| CliParse.SeparatorIsNoIntSpace | function/parser_utils.py:55 | a file separator before a digit is removed by `str.strip()` but makes the text no `int()` literal |
| CliParse.ParseRender | function/parser_utils.py:55 | the decimal text of a natural number parses back to it |
| CliParse.ParseRenderNegative | function/parser_utils.py:55 | a minus sign before the decimal text of `-n` parses back to the negative n |
| CliParse.ListOfInts | function/parser_utils.py:55 | fails with ValueError iff some comma piece is no integer literal; otherwise one int per piece, each the parse of its piece |
| CliParse.ListOfStrings | function/parser_utils.py:67 | one name per comma piece, each the strip of its piece |
| CliParse.ListOfStringsClean | function/parser_utils.py:67 | each name has no whitespace at either end, holds no comma, and is its own strip |
| CliParse.ListOfStringsStable | function/parser_utils.py:67 | converting the comma-join of the names again gives the same names |
| CliParse.IntOrNone | function/parser_utils.py:82-85 | text converts as `int()` does, with None for a non-literal; ints and bools convert to themselves; `int(None)` raises TypeError, which is not caught |
| CliParse.ParseZValues | function/parser_utils.py:13-19 | "none" in any letter case gives None; otherwise the int of the argument; a non-literal ends in NameError, because `sys` is not imported |
| CliParse.ZValueCases | function/parser_utils.py:13-19 | "None", "NONE" and "none" give None, and the decimal text of a natural number gives that number, never None |
| Defaults.NamesOfJoin | function/parser_utils.py:67 | the list converter gives back comma-joined pieces that hold no comma and have no whitespace at their ends |
| Defaults.DefaultNames | function/run_sample.py:155 | the list converter turns the default text into its eight comma pieces, the quotes around `variation coefficient` kept |
| Defaults.IntendedNames | function/run_sample.py:155 | the text without those quotes gives the eight statistic names |
| Defaults.DefaultFeatureListRefused | function/run_sample.py:155 | the default text yields the quoted name `"variation coefficient"`, which names no statistic, so any non-empty export of grid rows is refused |
| Defaults.IntendedFeatureListExported | function/run_sample.py:155 | the same list without the quotes names eight known statistics, and the export of grid rows goes through |
| Features.GridRowsWidth | function/feature_calculation_utils.py:76-78 | every row `compute_image_statistics` emits carries one value per recognised feature name |
| Defaults.DefaultImageRefused | function/run_sample.py:155 | the non-empty rows of any image, as `compute_image_statistics` emits them under the default list, are refused at export |
| Defaults.IntendedImageExported | function/run_sample.py:155 | the rows of any image under the list without quotes are exported |

## Findings

| source | as written | input that shows it | evidently intended | confidence | as-written member | corrected member |
|---|---|---|---|---|---|---|
| function/run_sample.py:155 | the default `-feature_list` quotes `"variation coefficient"`, and `list_of_strings` keeps the quotes, so `compute_image_statistics` skips that name and `export_features` gets rows one value narrower than its header | running with no `-feature_list` on any sample with at least one subcube | the eight names without quotes, so every default feature is computed and exported | high, not executed | Defaults.DefaultFeatureListRefused | Defaults.IntendedFeatureListExported |

## Left out

- Circle detection and masking in `get_rectangle_bounds` (function/image_preprocessing_utils.py:93-137) are left out. This covers outlier clipping, the Otsu threshold, dilation, the Hough transform and the radius/sqrt(2) box conversion, which are image processing in OpenCV. The per-slice boxes are the input of `RoiBounds.RectangleBounds`.
- `maintain_z_percentual` (lines 99-107) is left out. When it succeeds it only sets `z_i` and `z_f`, which line 158 overwrites before any use. Its error paths are not modelled: a list whose length is neither 1 nor 2 leaves `z_i_cut` unbound, so line 105 raises UnboundLocalError, and the other entries are not modelled: a non-numeric value raises TypeError or ValueError at line 101 or 103, and a digit string is repeated by the multiplication and accepted.
- The estimation of the void mean and rock median in `get_contrast_adjustments_values` and its median aggregation is left out. It is floating-point statistics over OpenCV masks.
- Floating point is not modelled: every value is an exact real.
- `Features.Evaluate`: the library statistics return a real, so scipy's NaN (skewness or kurtosis of a constant subcube, `variation` at mean 0) cannot appear in a feature row. Those NaN cells are what the `dropna` at function/rank_calculation_utils.py:87 removes; on the entropy side a missing value is `None`. The automatic Z bounds `0.1*depth` and `0.9*depth` are exact tenths, where Python rounds them.
- Standard deviation, skewness, kurtosis and the coefficient of variation are the `moments` parameter of `Features.Evaluate`. They are scipy/numpy library calls.
- The log2 sum of Shannon entropy and the kernel density estimate are left out. Both are parameters of `Entropy.EntropyOf`. The model fixes what each estimator is fed.
- The standardisation against the population file (function/rank_calculation_utils.py:89-95) is left out. It reads a CSV and applies scikit-learn's StandardScaler, so its affine map is folded into the estimator parameters. The map is one-to-one, so the value-count masses of the discrete branch do not change. Its failure on zero rows is modelled by `Entropy.ProcessCombination`.
- Opening the netCDF file is I/O. `Preprocess.LoadAndPreprocess` receives whether the file exists and the scan's `microtom` variable. The slicing at line 48 is modelled by `Preprocess.Crop`.
- CSV reads and writes, directory creation, and `check_image_dtype` are I/O and are left out.
- `Preprocess.CalibrateVoxel`: a rock median of zero is excluded by its precondition. numpy would divide by zero into infinities and NaN, and clip them.
- `Preprocess.CalibrateImage`: inherits the exclusion of a zero rock median from `Preprocess.CalibrateVoxel`.
- `Preprocess.LoadAndPreprocess`: inherits the exclusion of a zero rock median, for rows with contrast adjustment, from `Preprocess.CalibrateVoxel`.
- `Preprocess.ChoosePositions`: numpy's random generator is replaced by a sequence of draws. Any draws give 100 distinct positions in range, but which positions are chosen is not numpy's distribution.
- `RoiBounds.IntersectAll`: an empty shapely intersection is reported as EmptyIntersection. Shapely reports NaN bounds, and the integer cast of NaN depends on the numpy version.
- The bounds are kept as integers in the model. numpy's `floor` and `ceil` at lines 150-153 return floats holding integers.
- `Entropy.GenerateEntropyTable`: its rows are in order of first appearance of their key, where `pivot_table` sorts the keys.
- `Entropy.Pmf`: `value_counts` order is not modelled. The masses are in order of first appearance of their value, which changes neither their set nor their sum.
- `Entropy.PivotRow`: the mean of several cells is stated through its bounds only.
- `Stats.Median`: the contract bounds the median by the minimum and the maximum. That it is the middle of the sorted values is its definition, not a proved property.
- `Stats.Mean`: the contract bounds the mean by the minimum and the maximum. Its value is the sum over the count by definition.
- `Rank.CalculateSampleRank`: the rank columns are keyed by the feature's name instead of `<feature>_rank`.
- `Rank.CalculateSampleRank`: a feature whose own name contains "rank" is not modelled. pandas would also keep its value column at line 151.
- `Rank.CalculateSampleRank`: duplicate feature names are not modelled. pandas would select the duplicated column twice.
- `Rank.CalculateSampleRank`: the updated population table is never written back by the source. The model returns only the sample's rank rows, and `Rank.UpdateTable` states the update itself.
- `Features.ExportFeatures`: the unused `sample` argument is kept but plays no part.
- `CliParse.ParseInt`: the `int()` grammar is ASCII digits only. Underscores between digits and non-ASCII decimal digits, which Python accepts, are not modelled.
- `CliParse.ParseZValues`: `lower()` is modelled on ASCII letters only, which is all that matters for comparing with "none".
- `CliParse.IntOrNone`: inputs other than text, int, bool and None (floats, objects) are not modelled.
- function/run_sample.py is argument wiring, orchestration and multiprocessing pools, and is not part of this model, apart from the default feature list of line 155.
- function/views_plot.py is plotting with matplotlib, and is not part of this model.
- The multiprocessing `Manager` dictionary of `generate_pool_dict` is modelled as a plain map.
