/** The command-line threshold filter (`scripts/auto_filter_with_ai.py`):
    choose the product description (argument, JSON file or questions), filter
    the keyword column with ThresholdFilter, and write the sheet sorted by
    score with a status column, plus a JSON copy of the result. The console
    answers and the file contents are inputs. */
module AutoFilterWithAi {
  import opened Strings
  import opened Sorting
  import opened Frames
  import opened ZhipuScoring
  import opened ThresholdFilter
  import opened ZhipuVision

  const DefaultThreshold: real := 0.6
  const DefaultColumn: string := "关键词"
  const Passed: string := "✓ 通过"
  const Rejected: string := "✗ 过滤"

  /** The clauses of the interactive description for the five stripped
      answers (category, colours, theme, occasion, features), in question
      order. */
  function InteractiveClauses(c: string, co: string, t: string, o: string, f: string): seq<string> {
    Clause("This is a ", c, "") + Clause("featuring ", co, " color") + Clause("with ", t, " theme")
    + Clause("suitable for ", o, "") + Clause("Key features: ", f, "")
  }

  /** The interactive description for the five answers as typed. */
  function InteractiveDescription(category: string, colors: string, theme: string,
                                  occasion: string, features: string): string
  {
    Join(InteractiveClauses(Strip(category), Strip(colors), Strip(theme), Strip(occasion), Strip(features)), ". ") + "."
  }

  /** `create_product_description_interactive` with the five answers typed:
      each answer that is not blank after stripping adds its clause, in
      question order, and the clauses are joined by `". "` with a final dot. */
  method CreateDescriptionInteractive(category: string, colors: string, theme: string,
                                      occasion: string, features: string) returns (d: string)
    ensures d == InteractiveDescription(category, colors, theme, occasion, features)
  {
    var parts: seq<string> := [];
    parts := AddClause(parts, "This is a ", Strip(category), "");
    assert parts == Clause("This is a ", Strip(category), "");
    parts := AddClause(parts, "featuring ", Strip(colors), " color");
    parts := AddClause(parts, "with ", Strip(theme), " theme");
    parts := AddClause(parts, "suitable for ", Strip(occasion), "");
    parts := AddClause(parts, "Key features: ", Strip(features), "");
    d := Join(parts, ". ") + ".";
  }

  /** Blank answers everywhere give a lone dot. */
  lemma BlankAnswersGiveDot(category: string, colors: string, theme: string, occasion: string, features: string)
    requires AllSpace(category) && AllSpace(colors) && AllSpace(theme) && AllSpace(occasion) && AllSpace(features)
    ensures InteractiveDescription(category, colors, theme, occasion, features) == "."
  {
    assert InteractiveClauses(Strip(category), Strip(colors), Strip(theme), Strip(occasion), Strip(features)) == [];
  }

  /** Only answered questions contribute, each with its own fixed text, and
      all five answered give all five clauses in question order. */
  lemma InteractiveParts(c: string, co: string, t: string, o: string, f: string)
    ensures forall x :: x in InteractiveClauses(c, co, t, o, f) <==>
      || (c != [] && x == "This is a " + c)
      || (co != [] && x == "featuring " + co + " color")
      || (t != [] && x == "with " + t + " theme")
      || (o != [] && x == "suitable for " + o)
      || (f != [] && x == "Key features: " + f)
    ensures c != [] && co != [] && t != [] && o != [] && f != [] ==>
      InteractiveClauses(c, co, t, o, f)
        == ["This is a " + c, "featuring " + co + " color", "with " + t + " theme", "suitable for " + o,
            "Key features: " + f]
  {
    NoSuffixText("This is a ", c);
    NoSuffixText("suitable for ", o);
    NoSuffixText("Key features: ", f);
  }

  /** The description file: absent, a JSON object, or something
      `json.load(f).get` cannot handle (broken JSON, not an object). */
  datatype DescriptionFile = NoFile | ObjectFile(data: map<string, Json>) | UnreadableFile

  /** What `load_product_description_from_json` gives back. */
  datatype Loaded = LoadedNone | LoadedValue(value: Json) | LoadRaised

  /** `load_product_description_from_json`: no file gives `None`, a file
      without a `description` key gives `''`. */
  function LoadDescriptionFromJson(file: DescriptionFile): (r: Loaded)
    ensures file.NoFile? <==> r == LoadedNone
    ensures file.UnreadableFile? <==> r == LoadRaised
    ensures file.ObjectFile? && "description" !in file.data ==> r == LoadedValue(JStr(""))
    ensures file.ObjectFile? && "description" in file.data ==> r == LoadedValue(file.data["description"])
  {
    match file
    case NoFile => LoadedNone
    case UnreadableFile => LoadRaised
    case ObjectFile(data) => LoadedValue(if "description" in data then data["description"] else JStr(""))
  }

  /** Python truthiness of a JSON value. */
  predicate Truthy(j: Json) {
    match j
    case JNull => false
    case JBool(b) => b
    case JInt(i) => i != 0
    case JFloat(r) => r != 0.0
    case JStr(s) => s != []
    case JArray(items) => items != []
    case JObject(fields) => fields != map[]
  }

  /** The answers typed at the console, in the order they are asked. */
  datatype Answers = Answers(choice: string, category: string, colors: string, theme: string,
                             occasion: string, features: string)

  /** Where `main` gets its description from, or how it ends. */
  datatype Chosen =
    | FromArgument(text: string)
    | FromFile(value: Json)       // any truthy value of the `description` key
    | FromQuestions(text: string)
    | ExitCode(code: int)         // `sys.exit`
    | Crashed                     // the file loader raised

  /** The interactive path, taken when no truthy description is at hand:
      only the answer `y` (after stripping, in any case) leads to questions. */
  function AskSpec(answers: Answers): Chosen {
    if Lower(Strip(answers.choice)) == "y" then
      FromQuestions(InteractiveDescription(answers.category, answers.colors, answers.theme,
                                           answers.occasion, answers.features))
    else ExitCode(1)
  }

  /** Step 1 of `main`: a non-empty `--description` wins; otherwise
      `--description-file` is read; when neither gives a truthy value the
      questions decide. */
  method ChooseDescription(description: Option<string>, descriptionFile: Option<DescriptionFile>,
                           answers: Answers) returns (r: Chosen)
    ensures description.Some? && description.value != [] ==> r == FromArgument(description.value)
    ensures (description.None? || description.value == []) && descriptionFile.Some? ==>
      match LoadDescriptionFromJson(descriptionFile.value)
      case LoadRaised => r == Crashed
      case LoadedNone => r == AskSpec(answers)
      case LoadedValue(j) => r == if Truthy(j) then FromFile(j) else AskSpec(answers)
    ensures (description.None? || description.value == []) && descriptionFile.None? ==> r == AskSpec(answers)
  {
    var found: Option<Json> := None;
    if description.Some? && description.value != [] {
      return FromArgument(description.value);
    } else if descriptionFile.Some? {
      var loaded := LoadDescriptionFromJson(descriptionFile.value);
      if loaded.LoadRaised? {
        return Crashed;
      }
      if loaded.LoadedValue? {
        found := Some(loaded.value);
      }
    }
    if found.Some? && Truthy(found.value) {
      return FromFile(found.value);
    }
    var choice := Lower(Strip(answers.choice));
    if choice == "y" {
      var text := CreateDescriptionInteractive(answers.category, answers.colors, answers.theme,
                                               answers.occasion, answers.features);
      r := FromQuestions(text);
    } else {
      r := ExitCode(1);
    }
  }

  /** The status `save_results` writes: pass only with a score at or above
      the threshold; a missing score is filtered. */
  function AutoStatus(score: Option<real>, threshold: real): (s: string)
    ensures s == Passed <==> score.Some? && score.value >= threshold
    ensures s == Rejected <==> score.None? || score.value < threshold
  {
    if score.Some? && score.value >= threshold then Passed else Rejected
  }

  function AutoStatuses(scores: seq<Option<real>>, threshold: real): (r: seq<string>)
    ensures |r| == |scores| && forall k :: 0 <= k < |scores| ==> r[k] == AutoStatus(scores[k], threshold)
  {
    seq(|scores|, k requires 0 <= k < |scores| => AutoStatus(scores[k], threshold))
  }

  /** The score of row `k`, used as the sort key (the missing rows are kept
      apart and never compared). */
  function ScoreAt(scores: seq<Option<real>>, k: nat): real {
    if k < |scores| && scores[k].Some? then scores[k].value else 0.0
  }

  function ScoreKey(scores: seq<Option<real>>): nat -> real {
    (k: nat) => ScoreAt(scores, k)
  }

  /** The rows with a score, in order. */
  function PresentRows(scores: seq<Option<real>>): (r: seq<nat>)
    ensures forall a :: 0 <= a < |r| ==> r[a] < |scores| && scores[r[a]].Some?
    ensures forall a, b :: 0 <= a < b < |r| ==> r[a] < r[b]
  {
    if scores == [] then []
    else
      var n := |scores| - 1;
      PresentRows(scores[..n]) + (if scores[n].Some? then [n] else [])
  }

  /** The rows without a score, in order. */
  function MissingRows(scores: seq<Option<real>>): (r: seq<nat>)
    ensures forall a :: 0 <= a < |r| ==> r[a] < |scores| && scores[r[a]].None?
    ensures forall a, b :: 0 <= a < b < |r| ==> r[a] < r[b]
  {
    if scores == [] then []
    else
      var n := |scores| - 1;
      MissingRows(scores[..n]) + (if scores[n].None? then [n] else [])
  }

  /** The row order of `sort_values(score, ascending=False, na_position='last')`:
      the scored rows by descending score, then the unscored ones. */
  function RowOrder(scores: seq<Option<real>>): seq<nat> {
    SortDesc(PresentRows(scores), ScoreKey(scores)) + MissingRows(scores)
  }

  function Range(n: nat): (r: seq<nat>)
    ensures |r| == n && forall k :: 0 <= k < n ==> r[k] == k
  {
    seq(n, k requires 0 <= k < n => k)
  }

  /** Scored and unscored rows together are all the rows, once each. */
  lemma {:induction false} RowsSplit(scores: seq<Option<real>>)
    ensures multiset(PresentRows(scores)) + multiset(MissingRows(scores)) == multiset(Range(|scores|))
  {
    if scores != [] {
      var n := |scores| - 1;
      RowsSplit(scores[..n]);
      assert Range(n + 1) == Range(n) + [n];
    }
  }

  /** The sorted rows are a permutation of all the rows. */
  lemma RowOrderPermutation(scores: seq<Option<real>>)
    ensures multiset(RowOrder(scores)) == multiset(Range(|scores|))
    ensures |RowOrder(scores)| == |scores|
  {
    SortDescPermutation(PresentRows(scores), ScoreKey(scores));
    RowsSplit(scores);
    assert |multiset(RowOrder(scores))| == |multiset(Range(|scores|))|;
  }

  /** In the sorted order every scored row comes before every unscored one,
      scores never increase, and the unscored rows keep their order. */
  lemma RowOrderSorted(scores: seq<Option<real>>)
    ensures var o := RowOrder(scores); var p := |PresentRows(scores)|;
      && p <= |o|
      && (forall a :: 0 <= a < |o| ==> o[a] < |scores| && (scores[o[a]].Some? <==> a < p))
      && (forall a, b :: 0 <= a < b < p ==> scores[o[a]].value >= scores[o[b]].value)
      && (forall a, b :: p <= a < b < |o| ==> o[a] < o[b])
  {
    var present := PresentRows(scores);
    var sorted := SortDesc(present, ScoreKey(scores));
    SortDescPermutation(present, ScoreKey(scores));
    SortDescSorted(present, ScoreKey(scores));
    SortedRowsScored(scores, present, sorted);
    SortedRowsDescending(scores, sorted);
    ScoredThenMissing(scores, sorted, MissingRows(scores));
  }

  /** A permutation of scored rows holds only scored rows. */
  lemma SortedRowsScored(scores: seq<Option<real>>, present: seq<nat>, sorted: seq<nat>)
    requires forall a :: 0 <= a < |present| ==> present[a] < |scores| && scores[present[a]].Some?
    requires multiset(sorted) == multiset(present)
    ensures forall a :: 0 <= a < |sorted| ==> sorted[a] < |scores| && scores[sorted[a]].Some?
  {
    forall a | 0 <= a < |sorted| ensures sorted[a] < |scores| && scores[sorted[a]].Some? {
      assert sorted[a] in multiset(present);
    }
  }

  /** Scored rows sorted by their key have non-increasing scores. */
  lemma SortedRowsDescending(scores: seq<Option<real>>, sorted: seq<nat>)
    requires forall a :: 0 <= a < |sorted| ==> sorted[a] < |scores| && scores[sorted[a]].Some?
    requires SortedDesc(sorted, ScoreKey(scores))
    ensures forall a, b :: 0 <= a < b < |sorted| ==> scores[sorted[a]].value >= scores[sorted[b]].value
  {
    forall a, b | 0 <= a < b < |sorted| ensures scores[sorted[a]].value >= scores[sorted[b]].value {
      assert ScoreKey(scores)(sorted[a]) >= ScoreKey(scores)(sorted[b]);
    }
  }

  /** Sorted scored rows followed by the increasing unscored rows. */
  lemma ScoredThenMissing(scores: seq<Option<real>>, sorted: seq<nat>, missing: seq<nat>)
    requires forall a :: 0 <= a < |sorted| ==> sorted[a] < |scores| && scores[sorted[a]].Some?
    requires forall a, b :: 0 <= a < b < |sorted| ==> scores[sorted[a]].value >= scores[sorted[b]].value
    requires forall a :: 0 <= a < |missing| ==> missing[a] < |scores| && scores[missing[a]].None?
    requires forall a, b :: 0 <= a < b < |missing| ==> missing[a] < missing[b]
    ensures var o := sorted + missing; var p := |sorted|;
      && (forall a :: 0 <= a < |o| ==> o[a] < |scores| && (scores[o[a]].Some? <==> a < p))
      && (forall a, b :: 0 <= a < b < p ==> scores[o[a]].value >= scores[o[b]].value)
      && (forall a, b :: p <= a < b < |o| ==> o[a] < o[b])
  {
    var o := sorted + missing;
    var p := |sorted|;
    forall a | 0 <= a < |o| ensures o[a] < |scores| && (scores[o[a]].Some? <==> a < p) {
      if a >= p {
        assert o[a] == missing[a - p];
      }
    }
    forall a, b | p <= a < b < |o| ensures o[a] < o[b] {
      assert o[a] == missing[a - p] && o[b] == missing[b - p];
    }
  }

  /** `values` in the row order; a row a short column lacks reads as `d`. */
  function Pick<T>(values: seq<T>, order: seq<nat>, d: T): (r: seq<T>)
    ensures |r| == |order|
    ensures forall k :: 0 <= k < |order| && order[k] < |values| ==> r[k] == values[order[k]]
  {
    seq(|order|, k requires 0 <= k < |order| => if order[k] < |values| then values[order[k]] else d)
  }

  /** Every column of the sheet with its rows put in `order`. */
  function SortRows(sheet: seq<SheetColumn>, order: seq<nat>): (r: seq<SheetColumn>)
    ensures |r| == |sheet| && SheetNames(r) == SheetNames(sheet)
  {
    seq(|sheet|, k requires 0 <= k < |sheet| =>
      match sheet[k]
      case Kept(c) => Kept(Column(c.name, Pick(c.cells, order, Missing)))
      case Scores(n, v) => Scores(n, Pick(v, order, None))
      case Labels(n, t) => Labels(n, Pick(t, order, "")))
  }

  /** `output_file.replace(".xlsx", ".json").replace(".xls", ".json")`. */
  function JsonName(file: string): string {
    ReplaceAll(ReplaceAll(file, ".xlsx", ".json"), ".xls", ".json")
  }

  /** A workbook name `stem.xlsx` or `stem.xls` with no other dot gives
      `stem.json`. */
  lemma JsonNameOfWorkbook(stem: string)
    requires '.' !in stem
    ensures JsonName(stem + ".xlsx") == stem + ".json"
    ensures JsonName(stem + ".xls") == stem + ".json"
  {
    assert !Contains(".json", ".xls") by {
      assert ".json"[1..] == "json" && ".json"[1] != ".xls"[1];
      NotContainsWithoutChar("json", ".xls");
    }
    assert ReplaceAll(".json", ".xls", ".json") == ".json" by {
      ReplaceAllAbsent(".json", ".xls", ".json");
    }
    assert ReplaceAll(stem + ".json", ".xls", ".json") == stem + ".json" by {
      ReplaceAllSkips(stem, ".json", ".xls", ".json");
    }
    assert ReplaceAll(stem + ".xlsx", ".xlsx", ".json") == stem + ".json" by {
      ReplaceAllSkips(stem, ".xlsx", ".xlsx", ".json");
      assert ".xlsx"[5..] == "";
      assert ReplaceAll(".xlsx", ".xlsx", ".json") == ".json" + ReplaceAll("", ".xlsx", ".json");
    }
    assert ReplaceAll(stem + ".xls", ".xlsx", ".json") == stem + ".xls" by {
      ReplaceAllSkips(stem, ".xls", ".xlsx", ".json");
    }
    assert ReplaceAll(stem + ".xls", ".xls", ".json") == stem + ".json" by {
      ReplaceAllSkips(stem, ".xls", ".xls", ".json");
      assert ".xls"[4..] == "";
      assert ReplaceAll(".xls", ".xls", ".json") == ".json" + ReplaceAll("", ".xls", ".json");
    }
  }

  /** What `save_results` writes. */
  datatype Saved = Saved(file: string, jsonFile: string, order: seq<nat>, columns: seq<SheetColumn>)

  /** `save_results(result, excel_file, keyword_column, output_file)` where
      `df` is the sheet read back: the score and status columns are set,
      the rows sorted, the workbook written to `output_file` or to the input
      name with `_filtered` before the extension, and the JSON copy next to
      it. A missing keyword column raises `KeyError`; a repeated keyword or
      score label makes pandas raise. */
  function SaveResults(report: Report, excelFile: string, df: Frame, key: string, outputFile: Option<string>)
    : Attempt<Saved>
  {
    var file := if outputFile.Some? then outputFile.value else OutputName(excelFile, "_filtered");
    if CountNamed(df, key) == 0 then Stopped(ColumnMissing)
    else if Locate(df, key).None? || CountNamed(df, ScoreColumnName) > 1 then Stopped(ColumnRepeated)
    else
      var scores := CellScores(df[Locate(df, key).value].cells, report.allScores);
      var sheet := SetColumn(SetColumn(Sheet(df), Scores(ScoreColumnName, scores)),
                             Labels(StatusColumnName, AutoStatuses(scores, report.stats.threshold)));
      var order := RowOrder(scores);
      Done(Saved(file, JsonName(file), order, SortRows(sheet, order)))
  }

  /** The saved sheet is written where `save_results` says, its rows are a
      permutation of the keyword column's rows, and it holds the score and
      status columns with their rows in that order. */
  lemma SavedResultsCorrect(report: Report, excelFile: string, df: Frame, key: string, outputFile: Option<string>)
    requires CountNamed(df, key) == 1 && CountNamed(df, ScoreColumnName) <= 1
    ensures var r := SaveResults(report, excelFile, df, key, outputFile);
      var scores := CellScores(df[Locate(df, key).value].cells, report.allScores);
      r.Done?
      && r.value.file == (if outputFile.Some? then outputFile.value else OutputName(excelFile, "_filtered"))
      && r.value.jsonFile == JsonName(r.value.file)
      && r.value.order == RowOrder(scores)
      && multiset(r.value.order) == multiset(Range(|scores|))
      && Scores(ScoreColumnName, Pick(scores, r.value.order, None)) in r.value.columns
      && Labels(StatusColumnName, Pick(AutoStatuses(scores, report.stats.threshold), r.value.order, "")) in r.value.columns
  {
    var i := Locate(df, key).value;
    var scores := CellScores(df[i].cells, report.allScores);
    var scoreCol := Scores(ScoreColumnName, scores);
    var statusCol := Labels(StatusColumnName, AutoStatuses(scores, report.stats.threshold));
    var sheet := SetColumn(SetColumn(Sheet(df), scoreCol), statusCol);
    var order := RowOrder(scores);
    var file := if outputFile.Some? then outputFile.value else OutputName(excelFile, "_filtered");
    assert SaveResults(report, excelFile, df, key, outputFile) == Done(Saved(file, JsonName(file), order, SortRows(sheet, order)));
    RowOrderPermutation(scores);
    SetBoth(Sheet(df), scoreCol, statusCol);
    SortedColumnIn(sheet, order, scoreCol);
    SortedColumnIn(sheet, order, statusCol);
  }

  /** In the saved order the scores are sorted, descending with the missing
      ones last, and on every row the status says pass exactly when the
      score is present and at or above the threshold. */
  lemma SavedRowsOrdered(scores: seq<Option<real>>, threshold: real)
    ensures var sorted := Pick(scores, RowOrder(scores), None);
      var labels := Pick(AutoStatuses(scores, threshold), RowOrder(scores), "");
      && (forall a, b :: 0 <= a < b < |sorted| && sorted[b].Some? ==> sorted[a].Some? && sorted[a].value >= sorted[b].value)
      && (forall j :: 0 <= j < |labels| ==>
            (labels[j] == Passed <==> sorted[j].Some? && sorted[j].value >= threshold))
  {
    RowOrderSorted(scores);
    SortedScores(scores, RowOrder(scores), |PresentRows(scores)|);
    SortedStatuses(scores, threshold, RowOrder(scores));
  }

  /** A column of the sheet comes out of `SortRows` with its rows in order. */
  lemma SortedColumnIn(sheet: seq<SheetColumn>, order: seq<nat>, c: SheetColumn)
    requires c in sheet
    ensures c.Scores? ==> Scores(c.title, Pick(c.values, order, None)) in SortRows(sheet, order)
    ensures c.Labels? ==> Labels(c.title, Pick(c.texts, order, "")) in SortRows(sheet, order)
  {
    var j :| 0 <= j < |sheet| && sheet[j] == c;
    assert SortRows(sheet, order)[j] == match c
      case Kept(col) => Kept(Column(col.name, Pick(col.cells, order, Missing)))
      case Scores(n, v) => Scores(n, Pick(v, order, None))
      case Labels(n, t) => Labels(n, Pick(t, order, ""));
  }

  /** The scores picked in an order that lists the scored rows first, with
      non-increasing values, are sorted with the missing ones last. */
  lemma SortedScores(scores: seq<Option<real>>, o: seq<nat>, p: nat)
    requires p <= |o|
    requires forall a :: 0 <= a < |o| ==> o[a] < |scores| && (scores[o[a]].Some? <==> a < p)
    requires forall a, b :: 0 <= a < b < p ==> scores[o[a]].value >= scores[o[b]].value
    ensures var sorted := Pick(scores, o, None);
      forall a, b :: 0 <= a < b < |sorted| && sorted[b].Some? ==> sorted[a].Some? && sorted[a].value >= sorted[b].value
  {
    var sorted := Pick(scores, o, None);
    forall a, b | 0 <= a < b < |sorted| && sorted[b].Some?
      ensures sorted[a].Some? && sorted[a].value >= sorted[b].value
    {
      assert sorted[a] == scores[o[a]] && sorted[b] == scores[o[b]];
    }
  }

  /** The statuses picked in a row order still say pass exactly for the
      scores picked in that order that reach the threshold. */
  lemma SortedStatuses(scores: seq<Option<real>>, threshold: real, o: seq<nat>)
    requires forall a :: 0 <= a < |o| ==> o[a] < |scores|
    ensures var sorted := Pick(scores, o, None);
      var labels := Pick(AutoStatuses(scores, threshold), o, "");
      forall j :: 0 <= j < |labels| ==> (labels[j] == Passed <==> sorted[j].Some? && sorted[j].value >= threshold)
  {
    var sorted := Pick(scores, o, None);
    var statuses := AutoStatuses(scores, threshold);
    var labels := Pick(statuses, o, "");
    forall j | 0 <= j < |labels|
      ensures labels[j] == Passed <==> sorted[j].Some? && sorted[j].value >= threshold
    {
      assert labels[j] == statuses[o[j]] && sorted[j] == scores[o[j]];
    }
  }

  /** How a run of `main` ends. */
  datatype AutoRun =
    | Exited(code: int)
    | Completed(report: Report, saved: Attempt<Saved>)

  /** `main` after argument parsing: choose the description, load the
      keywords, filter and save. Every failure after the description step
      exits with status 1; so does declining to type a description. */
  method RunAutoFilter(description: Option<string>, descriptionFile: Option<DescriptionFile>, answers: Answers,
                       fileExists: bool, df: Frame, column: string, threshold: real, excelFile: string,
                       descApi: nat -> BatchReply, kwApi: nat -> BatchReply,
                       cosine: (Vector, Vector) -> real, cosineFails: bool) returns (run: AutoRun)
    ensures LoadKeywords(fileExists, df, column).Stopped? ==> run.Exited?
    ensures run.Completed? ==>
      LoadKeywords(fileExists, df, column).Done?
      && run.report.stats.threshold == threshold
      && run.saved == SaveResults(run.report, excelFile, df, column, None)
      && run.saved.Done?
  {
    var chosen := ChooseDescription(description, descriptionFile, answers);
    var text: string;
    match chosen {
      case FromArgument(t) => text := t;
      case FromQuestions(t) => text := t;
      case FromFile(j) =>
        if j.JStr? {
          text := j.s;
        } else {
          return Exited(1);
        }
      case ExitCode(code) => return Exited(code);
      case Crashed => return Exited(1);
    }
    var loaded := LoadKeywords(fileExists, df, column);
    if loaded.Stopped? {
      return Exited(1);
    }
    var result := FilterKeywords(loaded.value, text, threshold, descApi, kwApi, cosine, cosineFails);
    if result.Stopped? {
      return Exited(1);
    }
    FilterReportCorrect(loaded.value, text, threshold, descApi, kwApi, cosine, cosineFails);
    var saved := SaveResults(result.value, excelFile, df, column, None);
    if saved.Stopped? {
      return Exited(1);
    }
    run := Completed(result.value, saved);
  }
}
