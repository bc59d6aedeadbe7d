/** The standalone demo filter (`demo_zhipu_filter.py`): a fixed product
    description extended with fixed search terms, the threshold filter of
    ThresholdFilter, the score distribution it prints and the Excel copy it
    writes with a score and a status column right of the keyword column. */
module DemoZhipuFilter {
  import opened Strings
  import opened Sorting
  import opened Frames
  import opened ZhipuScoring
  import opened ThresholdFilter

  /** `SIMILARITY_THRESHOLD`, the threshold `main` passes. */
  const DemoThreshold: real := 0.6
  /** The default of `filter_keywords`' own `threshold` parameter. */
  const DefaultThreshold: real := 0.5
  const ExcelFile: string := "圣帕发箍.xlsx"
  const KeywordColumn: string := "关键词"

  const NoScore: string := "无数据"
  const Passed: string := "✓ 通过"
  const Rejected: string := "✗ 过滤"

  /** The search terms `generate_product_description` appends. */
  const SearchTerms: seq<string> := [
    "St. Patrick's Day headband", "Shamrock headband", "Green headband", "Clover headband",
    "Irish headband", "Party headband", "Costume headband", "Festive hair accessory",
    "St. Patrick's Day accessory", "Green tinsel headband", "Holiday headband",
    "St. Paddy's Day headband", "Irish costume accessory", "Glitter shamrock headband",
    "Sequined headband", "Festival hair accessory"]

  /** `product_info.get("description", "")`. */
  function BaseDescription(info: map<string, string>): string {
    if "description" in info then info["description"] else ""
  }

  /** `generate_product_description`: the base description, a space and the
      search terms joined by spaces. */
  function ProductDescription(info: map<string, string>): (d: string)
    ensures StartsWith(d, BaseDescription(info) + " ")
    ensures |d| > |BaseDescription(info)|
  {
    BaseDescription(info) + " " + Join(SearchTerms, " ")
  }

  /** The description mentions every search term, whatever the base. */
  lemma DescriptionHasTerms(info: map<string, string>, k: nat)
    requires k < |SearchTerms|
    ensures Contains(ProductDescription(info), SearchTerms[k])
  {
    JoinHasPart(SearchTerms, " ", k);
    ContainsAfter(BaseDescription(info) + " ", Join(SearchTerms, " "), SearchTerms[k]);
  }

  // The four bands of `print_results`' score distribution.
  predicate Excellent(x: Scored) { x.score >= 0.8 }
  predicate Good(x: Scored) { 0.6 <= x.score < 0.8 }
  predicate Fair(x: Scored) { 0.4 <= x.score < 0.6 }
  predicate Low(x: Scored) { x.score < 0.4 }

  /** `score_ranges`: the keywords of each band, in ranked order. */
  function Bands(ranked: seq<Scored>): (b: seq<seq<string>>)
    ensures |b| == 4
  {
    [Keywords(Filter(ranked, Excellent)), Keywords(Filter(ranked, Good)),
     Keywords(Filter(ranked, Fair)), Keywords(Filter(ranked, Low))]
  }

  /** Every ranked pair falls in exactly one band: the band sizes add up to
      the number of pairs and together the bands hold the same pairs. */
  lemma BandsPartition(s: seq<Scored>)
    ensures |Filter(s, Excellent)| + |Filter(s, Good)| + |Filter(s, Fair)| + |Filter(s, Low)| == |s|
    ensures multiset(Filter(s, Excellent)) + multiset(Filter(s, Good)) + multiset(Filter(s, Fair))
            + multiset(Filter(s, Low)) == multiset(s)
  {
    FilterUnion(s, Excellent, Good, AtLeastMid);
    FilterUnion(s, Fair, Low, BelowMid);
    FilterUnion(s, AtLeastMid, BelowMid, AnyScore);
    FilterAll(s, AnyScore);
  }

  predicate AtLeastMid(x: Scored) { x.score >= 0.6 }
  predicate BelowMid(x: Scored) { x.score < 0.6 }
  predicate AnyScore(x: Scored) { true }

  /** The printed counts are the band sizes, and they add up to the total. */
  lemma BandCountsAddUp(ranked: seq<Scored>)
    ensures |Bands(ranked)[0]| + |Bands(ranked)[1]| + |Bands(ranked)[2]| + |Bands(ranked)[3]| == |ranked|
  {
    BandsPartition(ranked);
  }

  /** `get_status`: no score means no data; otherwise pass exactly at or
      above the threshold. */
  function DemoStatus(score: Option<real>, threshold: real): (s: string)
    ensures score.None? <==> s == NoScore
    ensures s == Passed <==> score.Some? && score.value >= threshold
    ensures s == Rejected <==> score.Some? && score.value < threshold
  {
    match score
    case None => NoScore
    case Some(v) => if v >= threshold then Passed else Rejected
  }

  /** `df[score_column].apply(get_status)`. */
  function DemoStatuses(scores: seq<Option<real>>, threshold: real): (r: seq<string>)
    ensures |r| == |scores| && forall k :: 0 <= k < |scores| ==> r[k] == DemoStatus(scores[k], threshold)
  {
    seq(|scores|, k requires 0 <= k < |scores| => DemoStatus(scores[k], threshold))
  }

  /** The column list of `save_to_excel`: `score` and `status` are removed
      and put back right after position `k` of the keyword column. */
  method ArrangeColumns(names: seq<string>, k: nat, score: string, status: string) returns (cols: seq<string>)
    requires score in names && status in names && score != status
    ensures |cols| == |names|
    ensures forall y :: y in cols <==> y in names
    ensures k + 2 < |names| ==> cols[k + 1] == score && cols[k + 2] == status
    ensures |names| >= 2 && names[|names| - 2..] == [score, status]
            && score !in names[..|names| - 2] && status !in names[..|names| - 2] && k < |names| - 2 ==>
              cols == names[..k + 1] + [score, status] + names[k + 1..|names| - 2]
  {
    cols := names;
    cols := RemoveFirst(cols, score);
    cols := RemoveFirst(cols, status);
    ghost var rest := cols;
    cols := ListInsert(cols, k + 1, score);
    cols := ListInsert(cols, k + 2, status);
    ArrangedMembers(names, rest, k, score, status);
    var n := |names|;
    if n >= 2 && names[n - 2..] == [score, status] && score !in names[..n - 2] && status !in names[..n - 2] && k < n - 2 {
      ArrangedLayout(names, rest, k, score, status);
    }
  }

  /** Taking the two labels out and putting them back after position `k`
      keeps the length and the labels, and puts the two at `k + 1` and
      `k + 2` when the list is long enough. */
  lemma ArrangedMembers(names: seq<string>, rest: seq<string>, k: nat, score: string, status: string)
    requires score in names && status in names && score != status
    requires rest == RemoveFirst(RemoveFirst(names, score), status)
    ensures var cols := ListInsert(ListInsert(rest, k + 1, score), k + 2, status);
      && |cols| == |names|
      && (forall y :: y in cols <==> y in names)
      && (k + 2 < |names| ==> cols[k + 1] == score && cols[k + 2] == status)
  {
    var one := ListInsert(rest, k + 1, score);
    var cols := ListInsert(one, k + 2, status);
    assert status in RemoveFirst(names, score);
    ListInsertMembers(rest, k + 1, score);
    ListInsertMembers(one, k + 2, status);
    if k + 2 < |names| {
      assert cols[k + 1] == one[k + 1];
    }
  }

  /** When the two labels are the last two entries, cut once each, the
      arranged list is the rest with the two right after position `k`. */
  lemma ArrangedLayout(names: seq<string>, rest: seq<string>, k: nat, score: string, status: string)
    requires |names| >= 2 && names[|names| - 2..] == [score, status] && score != status
    requires score !in names[..|names| - 2] && status !in names[..|names| - 2] && k < |names| - 2
    requires rest == RemoveFirst(RemoveFirst(names, score), status)
    ensures ListInsert(ListInsert(rest, k + 1, score), k + 2, status)
      == names[..k + 1] + [score, status] + names[k + 1..|names| - 2]
  {
    var base := names[..|names| - 2];
    RemovedPair(names, score, status);
    InsertedPair(base, k, score, status);
    assert base[..k + 1] == names[..k + 1] && base[k + 1..] == names[k + 1..|names| - 2];
  }

  /** Removing the last two entries of a list that holds them once each
      leaves the rest. */
  lemma RemovedPair(names: seq<string>, score: string, status: string)
    requires |names| >= 2 && names[|names| - 2..] == [score, status] && score != status
    requires score !in names[..|names| - 2] && status !in names[..|names| - 2]
    ensures RemoveFirst(RemoveFirst(names, score), status) == names[..|names| - 2]
  {
    var n := |names|;
    var base := names[..n - 2];
    RemoveFirstSplits(names, score, n - 2);
    assert names[..n - 2] + names[n - 1..] == base + [status];
    RemoveFirstSplits(base + [status], status, n - 2);
    assert (base + [status])[..n - 2] == base;
  }

  /** Inserting two entries at consecutive positions puts them side by side. */
  lemma InsertedPair(base: seq<string>, k: nat, score: string, status: string)
    requires k < |base|
    ensures ListInsert(ListInsert(base, k + 1, score), k + 2, status) == base[..k + 1] + [score, status] + base[k + 1..]
  {
    var one := ListInsert(base, k + 1, score);
    assert one[..k + 2] == base[..k + 1] + [score];
    assert one[k + 2..] == base[k + 1..];
  }

  /** `df[cols]` for labels that each name a column: a label picks the first
      column that carries it. */
  function Select(sheet: seq<SheetColumn>, cols: seq<string>): (r: seq<SheetColumn>)
    requires forall k :: 0 <= k < |cols| ==> cols[k] in SheetNames(sheet)
    ensures |r| == |cols| && SheetNames(r) == cols
    ensures forall k :: 0 <= k < |cols| ==> r[k] == sheet[IndexOf(SheetNames(sheet), cols[k])]
  {
    seq(|cols|, k requires 0 <= k < |cols| => sheet[IndexOf(SheetNames(sheet), cols[k])])
  }

  /** What `save_to_excel` writes: nothing, or a workbook with its columns. */
  datatype Written = NotWritten | Workbook(file: string, columns: seq<SheetColumn>)

  /** `save_to_excel(result, excel_file, keyword_column, output_file=...)`
      where `df` is the sheet read back from `excel_file`. A missing keyword
      column skips the write; a keyword label naming several columns makes
      the score assignment raise, and a score label naming several columns
      makes `get_status` raise on the column pair it is applied to. Otherwise
      the score and status columns are set, moved right of the keyword
      column, and the workbook goes to `output_file` or to the input name
      with `_result` before the extension. */
  method SaveToExcel(report: Report, excelFile: string, df: Frame, key: string, outputFile: Option<string>)
      returns (r: Attempt<Written>)
    ensures CountNamed(df, key) == 0 ==> r == Done(NotWritten)
    ensures CountNamed(df, key) > 1 ==> r == Stopped(ColumnRepeated)
    ensures CountNamed(df, key) == 1 && CountNamed(df, ScoreColumnName) > 1 ==> r == Stopped(ColumnRepeated)
    ensures CountNamed(df, key) == 1 && CountNamed(df, ScoreColumnName) <= 1 ==>
      var i := Locate(df, key).value;
      var scores := CellScores(df[i].cells, report.allScores);
      r.Done? && r.value.Workbook?
      && r.value.file == (if outputFile.Some? then outputFile.value else OutputName(excelFile, "_result"))
      && ResultColumns(df, i, Scores(ScoreColumnName, scores),
                       Labels(StatusColumnName, DemoStatuses(scores, report.stats.threshold)), r.value.columns)
  {
    var file := if outputFile.Some? then outputFile.value else OutputName(excelFile, "_result");
    if CountNamed(df, key) == 0 {
      return Done(NotWritten);
    }
    var located := Locate(df, key);
    if located.None? {
      return Stopped(ColumnRepeated);
    }
    var i := located.value;
    if CountNamed(df, ScoreColumnName) > 1 {
      return Stopped(ColumnRepeated);
    }
    var scores := CellScores(df[i].cells, report.allScores);
    var scoreCol := Scores(ScoreColumnName, scores);
    var statusCol := Labels(StatusColumnName, DemoStatuses(scores, report.stats.threshold));
    var out := PlaceResultColumns(df, i, scoreCol, statusCol);
    r := Done(Workbook(file, out));
  }

  /** The shape of the written columns, for the keyword column at `i`: the
      score and status columns are there and are the only columns with
      their labels, and when every label of the read sheet is distinct and
      neither label is among them, the columns are the read ones with the
      two new ones right after column `i`. */
  ghost predicate ResultColumns(df: Frame, i: nat, scoreCol: SheetColumn, statusCol: SheetColumn,
                                out: seq<SheetColumn>)
    requires i < |df|
  {
    && scoreCol in out && statusCol in out
    && (forall j :: 0 <= j < |out| && out[j].Name() == ScoreColumnName ==> out[j] == scoreCol)
    && (forall j :: 0 <= j < |out| && out[j].Name() == StatusColumnName ==> out[j] == statusCol)
    && (NoDuplicates(Names(df)) && ScoreColumnName !in Names(df) && StatusColumnName !in Names(df) ==>
          out == Sheet(df[..i + 1]) + [scoreCol, statusCol] + Sheet(df[i + 1..]))
  }

  /** The columns `save_to_excel` writes once the keyword column is at `i`:
      the score and status columns set, then moved right of it. */
  method PlaceResultColumns(df: Frame, i: nat, scoreCol: SheetColumn, statusCol: SheetColumn)
      returns (out: seq<SheetColumn>)
    requires i < |df| && scoreCol.Name() == ScoreColumnName && statusCol.Name() == StatusColumnName
    ensures ResultColumns(df, i, scoreCol, statusCol, out)
  {
    var sheet := SetColumn(SetColumn(Sheet(df), scoreCol), statusCol);
    var names := SheetNames(sheet);
    SetBoth(Sheet(df), scoreCol, statusCol);
    var cols := ArrangeColumns(names, i, ScoreColumnName, StatusColumnName);
    SetTwoColumns(Sheet(df), scoreCol, statusCol, cols);
    out := Select(sheet, cols);
    if NoDuplicates(Names(df)) && ScoreColumnName !in Names(df) && StatusColumnName !in Names(df) {
      NewColumnsCase(df, i, scoreCol, statusCol, sheet, names, cols);
    }
  }

  /** After setting two differently labelled columns and selecting labels
      that are all on the sheet, both columns are there, and each is the only
      column carrying its label. */
  lemma SetTwoColumns(sheet0: seq<SheetColumn>, a: SheetColumn, b: SheetColumn, cols: seq<string>)
    requires a.Name() != b.Name()
    requires var names := SheetNames(SetColumn(SetColumn(sheet0, a), b));
      forall y :: y in cols <==> y in names
    ensures var sheet := SetColumn(SetColumn(sheet0, a), b);
      (forall k :: 0 <= k < |cols| ==> cols[k] in SheetNames(sheet))
      && a in Select(sheet, cols) && b in Select(sheet, cols)
      && (forall j :: 0 <= j < |cols| && Select(sheet, cols)[j].Name() == a.Name() ==> Select(sheet, cols)[j] == a)
      && (forall j :: 0 <= j < |cols| && Select(sheet, cols)[j].Name() == b.Name() ==> Select(sheet, cols)[j] == b)
  {
    var sheet := SetColumn(SetColumn(sheet0, a), b);
    SetBoth(sheet0, a, b);
    SelectLabelled(sheet, cols, a);
    SelectLabelled(sheet, cols, b);
  }

  /** Selecting puts back, for a label whose columns are all `c`, only `c`,
      and `c` itself when its label is selected. */
  lemma SelectLabelled(sheet: seq<SheetColumn>, cols: seq<string>, c: SheetColumn)
    requires forall k :: 0 <= k < |cols| ==> cols[k] in SheetNames(sheet)
    requires c in sheet && c.Name() in cols
    requires forall j :: 0 <= j < |sheet| && sheet[j].Name() == c.Name() ==> sheet[j] == c
    ensures c in Select(sheet, cols)
    ensures forall j :: 0 <= j < |cols| && Select(sheet, cols)[j].Name() == c.Name() ==> Select(sheet, cols)[j] == c
  {
    var j := IndexOf(cols, c.Name());
    assert Select(sheet, cols)[j] == c;
  }

  /** The written columns when the score and status labels are new and all
      labels are distinct. */
  lemma NewColumnsCase(df: Frame, i: nat, scoreCol: SheetColumn, statusCol: SheetColumn,
                       sheet: seq<SheetColumn>, names: seq<string>, cols: seq<string>)
    requires i < |df| && NoDuplicates(Names(df))
    requires scoreCol.Name() == ScoreColumnName && statusCol.Name() == StatusColumnName
    requires ScoreColumnName !in Names(df) && StatusColumnName !in Names(df)
    requires sheet == SetColumn(SetColumn(Sheet(df), scoreCol), statusCol) && names == SheetNames(sheet)
    requires |names| >= 2 && names[|names| - 2..] == [ScoreColumnName, StatusColumnName]
             && ScoreColumnName !in names[..|names| - 2] && StatusColumnName !in names[..|names| - 2] && i < |names| - 2 ==>
               cols == names[..i + 1] + [ScoreColumnName, StatusColumnName] + names[i + 1..|names| - 2]
    ensures forall k :: 0 <= k < |cols| ==> cols[k] in SheetNames(sheet)
    ensures Select(sheet, cols) == Sheet(df[..i + 1]) + [scoreCol, statusCol] + Sheet(df[i + 1..])
  {
    NewColumnsAppended(df, scoreCol, statusCol);
    assert names == Names(df) + [ScoreColumnName, StatusColumnName] by {
      assert SheetNames(SetColumn(Sheet(df), scoreCol)) == Names(df) + [ScoreColumnName];
    }
    AppendedNames(Names(df), names, ScoreColumnName, StatusColumnName, i);
    NewColumnsLayout(df, i, scoreCol, statusCol, cols);
  }

  /** Two new labels appended to `base`, seen from the end of the list. */
  lemma AppendedNames(base: seq<string>, names: seq<string>, s: string, t: string, i: nat)
    requires names == base + [s, t] && s !in base && t !in base && i < |base|
    ensures |names| >= 2 && names[|names| - 2..] == [s, t] && names[..|names| - 2] == base && i < |names| - 2
    ensures names[..i + 1] + [s, t] + names[i + 1..|names| - 2] == base[..i + 1] + [s, t] + base[i + 1..]
  {
    assert names[..|names| - 2] == base;
    assert names[|names| - 2..] == [s, t];
    assert names[..i + 1] == base[..i + 1];
    assert names[i + 1..|names| - 2] == base[i + 1..];
  }

  /** Two labels the sheet does not have yet go at its end, in order. */
  lemma NewColumnsAppended(df: Frame, scoreCol: SheetColumn, statusCol: SheetColumn)
    requires scoreCol.Name() !in Names(df) && statusCol.Name() !in Names(df) && scoreCol.Name() != statusCol.Name()
    ensures SetColumn(SetColumn(Sheet(df), scoreCol), statusCol) == Sheet(df) + [scoreCol, statusCol]
  {
    var sheet1 := SetColumn(Sheet(df), scoreCol);
    assert sheet1 == Sheet(df) + [scoreCol];
    assert statusCol.Name() !in SheetNames(sheet1) by {
      assert SheetNames(sheet1) == Names(df) + [scoreCol.Name()];
    }
  }

  /** With distinct labels and two new columns, selecting the arranged labels
      gives the read columns with the two new ones right after column `i`. */
  lemma NewColumnsLayout(df: Frame, i: nat, scoreCol: SheetColumn, statusCol: SheetColumn, cols: seq<string>)
    requires i < |df| && NoDuplicates(Names(df))
    requires scoreCol.Name() !in Names(df) && statusCol.Name() !in Names(df) && scoreCol.Name() != statusCol.Name()
    requires cols == Names(df)[..i + 1] + [scoreCol.Name(), statusCol.Name()] + Names(df)[i + 1..]
    ensures forall k :: 0 <= k < |cols| ==> cols[k] in SheetNames(Sheet(df) + [scoreCol, statusCol])
    ensures Select(Sheet(df) + [scoreCol, statusCol], cols) == Sheet(df[..i + 1]) + [scoreCol, statusCol] + Sheet(df[i + 1..])
  {
    var sheet := Sheet(df) + [scoreCol, statusCol];
    var names := SheetNames(sheet);
    assert names == Names(df) + [scoreCol.Name(), statusCol.Name()];
    assert NoDuplicates(names);
    var want := Sheet(df[..i + 1]) + [scoreCol, statusCol] + Sheet(df[i + 1..]);
    forall k | 0 <= k < |cols| ensures cols[k] in names && sheet[IndexOf(names, cols[k])] == want[k] {
      var m := LayoutSource(df, i, scoreCol, statusCol, cols, want, k);
      IndexOfDistinct(names, m);
    }
  }

  /** Where entry `k` of the arranged labels, and of the wanted columns,
      comes from in the sheet with the two new columns appended. */
  lemma LayoutSource(df: Frame, i: nat, scoreCol: SheetColumn, statusCol: SheetColumn,
                     cols: seq<string>, want: seq<SheetColumn>, k: nat) returns (m: nat)
    requires i < |df| && k < |df| + 2
    requires cols == Names(df)[..i + 1] + [scoreCol.Name(), statusCol.Name()] + Names(df)[i + 1..]
    requires want == Sheet(df[..i + 1]) + [scoreCol, statusCol] + Sheet(df[i + 1..])
    ensures m < |df| + 2 && k < |cols| && k < |want|
    ensures cols[k] == (Names(df) + [scoreCol.Name(), statusCol.Name()])[m]
    ensures want[k] == (Sheet(df) + [scoreCol, statusCol])[m]
  {
    var n := |df|;
    if k <= i {
      m := k;
      assert want[k] == Kept(df[..i + 1][k]);
    } else if k == i + 1 {
      m := n;
    } else if k == i + 2 {
      m := n + 1;
    } else {
      m := k - 2;
      assert want[k] == Kept(df[i + 1..][k - i - 3]);
    }
  }

  /** How the demo run ends. */
  datatype DemoRun =
    | LoadFailed(reason: Reason)       // printed, and `main` returns
    | FilterFailed(reason: Reason)     // printed with the traceback
    | Finished(report: Report, written: Attempt<Written>)  // a write that raised reaches the same handler

  /** `main`: load the keyword column, filter it against the fixed
      description at `SIMILARITY_THRESHOLD`, and write the Excel copy. */
  method RunDemo(fileExists: bool, df: Frame, info: map<string, string>,
                 descApi: nat -> BatchReply, kwApi: nat -> BatchReply,
                 cosine: (Vector, Vector) -> real, cosineFails: bool) returns (run: DemoRun)
    ensures LoadKeywords(fileExists, df, KeywordColumn).Stopped? ==>
      run == LoadFailed(LoadKeywords(fileExists, df, KeywordColumn).reason)
    ensures LoadKeywords(fileExists, df, KeywordColumn).Done? ==>
      var spec := FilterSpec(LoadKeywords(fileExists, df, KeywordColumn).value, ProductDescription(info),
                             DemoThreshold, descApi, kwApi, cosine, cosineFails);
      (spec.Stopped? ==> run == FilterFailed(spec.reason))
      && (spec.Done? ==> run.Finished? && run.report == spec.value)
      && (spec.Done? && CountNamed(df, ScoreColumnName) > 1 ==> run.written == Stopped(ColumnRepeated))
      && (spec.Done? && CountNamed(df, ScoreColumnName) <= 1 ==>
            run.written.Done? && run.written.value.Workbook?
            && run.written.value.file == OutputName(ExcelFile, "_result"))
  {
    var loaded := LoadKeywords(fileExists, df, KeywordColumn);
    if loaded.Stopped? {
      return LoadFailed(loaded.reason);
    }
    var result := FilterKeywords(loaded.value, ProductDescription(info), DemoThreshold,
                                 descApi, kwApi, cosine, cosineFails);
    if result.Stopped? {
      return FilterFailed(result.reason);
    }
    var written := SaveToExcel(result.value, ExcelFile, df, KeywordColumn, None);
    run := Finished(result.value, written);
  }

  /** A sheet with the keyword column and no rows loads no keywords, and,
      once the description has its vector, the filter stops on the empty
      keyword array: by `RunDemo`'s contract the run ends in
      `FilterFailed(SimilarityFailed)`, not in a load failure. */
  lemma HeaderOnlySheetFails(df: Frame, info: map<string, string>,
                             descApi: nat -> BatchReply, kwApi: nat -> BatchReply,
                             cosine: (Vector, Vector) -> real, cosineFails: bool)
    requires CountNamed(df, KeywordColumn) == 1 && df[Locate(df, KeywordColumn).value].cells == []
    requires Fetch([ProductDescription(info)], descApi).Done? && Fetch([ProductDescription(info)], descApi).value != []
    ensures LoadKeywords(true, df, KeywordColumn) == Done([])
    ensures FilterSpec([], ProductDescription(info), DemoThreshold, descApi, kwApi, cosine, cosineFails)
      == Stopped(SimilarityFailed)
  {
    NoKeywordsStops(ProductDescription(info), DemoThreshold, descApi, kwApi, cosine, cosineFails);
  }
}
