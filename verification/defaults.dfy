/** The default `-feature_list` of run_sample.py and what it leads to at
    export. */
module Defaults {
  import opened Common
  import opened CliParse
  import opened Features
  import opened Volumes

  /** The comma pieces of the default text at line 155, quotes included. */
  const DefaultPieces: seq<string> :=
    ["mean", "std", "min", "max", "skewness", "kurtosis", "\"variation coefficient\"", "median"]

  /** The pieces naming the eight statistics of the operation table. */
  const IntendedPieces: seq<string> :=
    ["mean", "std", "min", "max", "skewness", "kurtosis", "variation coefficient", "median"]

  /** A piece the list converter keeps as it is. */
  predicate CleanPiece(p: string) {
    ',' !in p && |p| > 0 && !IsSpace(p[0]) && !IsSpace(p[|p| - 1])
  }

  /** The comma-joined text of some pieces, with the names the list converter
      makes of it: each piece, when no piece holds a comma or has whitespace
      at an end. */
  lemma NamesOfJoin(pieces: seq<string>)
    requires |pieces| > 0
    requires forall i :: 0 <= i < |pieces| ==> CleanPiece(pieces[i])
    ensures ListOfStrings(Join(pieces)) == pieces
  {
    SplitJoin(pieces);
    forall i | 0 <= i < |pieces| ensures Strip(pieces[i]) == pieces[i] {
      StripKeepsInner(pieces[i]);
    }
  }

  /** The names the list converter makes of the default text. */
  lemma DefaultNames(text: string)
    requires text == Join(DefaultPieces)
    ensures ListOfStrings(text) == DefaultPieces
  {
    var ps := DefaultPieces;
    assert CleanPiece(ps[0]) && CleanPiece(ps[1]) && CleanPiece(ps[2]) && CleanPiece(ps[3]);
    assert CleanPiece(ps[4]) && CleanPiece(ps[5]) && CleanPiece(ps[6]) && CleanPiece(ps[7]);
    NamesOfJoin(ps);
  }

  /** The names the list converter makes of the text without quotes. */
  lemma IntendedNames(text: string)
    requires text == Join(IntendedPieces)
    ensures ListOfStrings(text) == IntendedPieces
  {
    var ps := IntendedPieces;
    assert CleanPiece(ps[0]) && CleanPiece(ps[1]) && CleanPiece(ps[2]) && CleanPiece(ps[3]);
    assert CleanPiece(ps[4]) && CleanPiece(ps[5]) && CleanPiece(ps[6]) && CleanPiece(ps[7]);
    NamesOfJoin(ps);
  }

  /** Every intended name is a key of the operation table. */
  lemma IntendedKnown()
    ensures forall i :: 0 <= i < |IntendedPieces| ==> StatisticOf(IntendedPieces[i]).Some?
  {
    var ps := IntendedPieces;
    forall i | 0 <= i < |ps| ensures StatisticOf(ps[i]).Some? {
      if i < 4 {
        assert StatisticOf(ps[0]).Some? && StatisticOf(ps[1]).Some? && StatisticOf(ps[2]).Some? && StatisticOf(ps[3]).Some?;
      } else {
        assert StatisticOf(ps[4]).Some? && StatisticOf(ps[5]).Some? && StatisticOf(ps[6]).Some? && StatisticOf(ps[7]).Some?;
      }
    }
  }

  /** With the default list every grid row lacks the quoted name's value, so
      any non-empty export is refused. */
  lemma DefaultFeatureListRefused(results: seq<seq<FeatureRow>>, sample: string, text: string)
    requires text == Join(DefaultPieces)
    requires |Concat(results)| > 0
    requires forall i :: 0 <= i < |Concat(results)| ==> |Concat(results)[i].values| == |Recognised(ListOfStrings(text))|
    ensures ListOfStrings(text) == DefaultPieces
    ensures StatisticOf(DefaultPieces[6]).None?
    ensures ExportFeatures(results, sample, ListOfStrings(text)).Err?
  {
    DefaultNames(text);
    ExportNeedsKnownNames(results, sample, DefaultPieces);
  }

  /** Without the quotes every name is known and the export goes through. */
  lemma IntendedFeatureListExported(results: seq<seq<FeatureRow>>, sample: string, text: string)
    requires text == Join(IntendedPieces)
    requires forall i :: 0 <= i < |Concat(results)| ==> |Concat(results)[i].values| == |Recognised(ListOfStrings(text))|
    ensures ListOfStrings(text) == IntendedPieces
    ensures forall i :: 0 <= i < |IntendedPieces| ==> StatisticOf(IntendedPieces[i]).Some?
    ensures ExportFeatures(results, sample, ListOfStrings(text)).Ok?
  {
    IntendedNames(text);
    IntendedKnown();
    ExportNeedsKnownNames(results, sample, IntendedPieces);
  }

  /** The rows of one image, as `compute_image_statistics` emits them under
      the default list, are refused at export. */
  lemma DefaultImageRefused(rows: seq<FeatureRow>, sample: string, adjustment: bool, division: int,
                            im: Image, seg: int, moments: Moments, text: string)
    requires text == Join(DefaultPieces)
    requires |rows| > 0
    requires forall n :: 0 <= n < |rows| ==> IsRowOf(rows[n], n, sample, adjustment, division, im, seg, ListOfStrings(text), moments)
    ensures ExportFeatures([rows], sample, ListOfStrings(text)).Err?
  {
    GridRowsWidth(rows, sample, adjustment, division, im, seg, ListOfStrings(text), moments);
    assert Concat([rows]) == rows by { assert [rows][..0] == []; }
    DefaultFeatureListRefused([rows], sample, text);
  }

  /** The same rows under the intended list are exported. */
  lemma IntendedImageExported(rows: seq<FeatureRow>, sample: string, adjustment: bool, division: int,
                              im: Image, seg: int, moments: Moments, text: string)
    requires text == Join(IntendedPieces)
    requires forall n :: 0 <= n < |rows| ==> IsRowOf(rows[n], n, sample, adjustment, division, im, seg, ListOfStrings(text), moments)
    ensures ExportFeatures([rows], sample, ListOfStrings(text)).Ok?
  {
    GridRowsWidth(rows, sample, adjustment, division, im, seg, ListOfStrings(text), moments);
    assert Concat([rows]) == rows by { assert [rows][..0] == []; }
    IntendedFeatureListExported([rows], sample, text);
  }
}
