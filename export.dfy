/** The export of the triage engine (`generate_export_excel`): the uploaded
    sheet comes back with a `Score` and a `Status` column right after the
    keyword column, each row taking the values of the queued item whose
    keyword is that row's text. Writing the workbook to a file is not
    modelled. */
module WorkflowExport {
  import opened Strings
  import opened Frames
  import opened WorkflowQueues

  /** `result_map = {item['keyword']: item for item in all_results}`: a later
      item overrides an earlier one with the same keyword. */
  function ResultMap(s: seq<Item>): (r: map<string, Item>)
    ensures forall k :: k in r <==> exists i :: 0 <= i < |s| && s[i].keyword == k
    ensures forall k :: k in r ==> r[k].keyword == k
  {
    if s == [] then map[]
    else
      var x := s[|s| - 1];
      var r := ResultMap(s[..|s| - 1]);
      assert forall i :: 0 <= i < |s| - 1 ==> s[..|s| - 1][i] == s[i];
      r[x.keyword := x]
  }

  /** The map holds, for each keyword, its last item. */
  lemma {:induction false} ResultMapLast(s: seq<Item>, j: nat)
    requires j < |s| && forall i :: j < i < |s| ==> s[i].keyword != s[j].keyword
    ensures ResultMap(s)[s[j].keyword] == s[j]
  {
    if j < |s| - 1 {
      assert s[..|s| - 1][j] == s[j];
      assert forall i :: j < i < |s| - 1 ==> s[..|s| - 1][i] == s[i];
      ResultMapLast(s[..|s| - 1], j);
    }
  }

  /** A row's export values: the score and status name of its keyword's
      item, or nothing and `'unprocessed'`. */
  function RowScore(key: string, rm: map<string, Item>): Option<real> {
    if key in rm then Some(rm[key].score) else None
  }

  function RowStatus(key: string, rm: map<string, Item>): string {
    if key in rm then rm[key].status.Name() else "unprocessed"
  }

  /** The loop over `df[keyword_col]` building `scores` and `statuses`; the
      lookup is by `str(val)` exactly, with no trimming. */
  method ResultColumns(cells: seq<Cell>, rm: map<string, Item>) returns (scores: seq<Option<real>>, statuses: seq<string>)
    ensures |scores| == |cells| && |statuses| == |cells|
    ensures forall k :: 0 <= k < |cells| ==>
      scores[k] == (if CellStr(cells[k]) in rm then Some(rm[CellStr(cells[k])].score) else None)
    ensures forall k :: 0 <= k < |cells| ==>
      statuses[k] == (if CellStr(cells[k]) in rm then rm[CellStr(cells[k])].status.Name() else "unprocessed")
    ensures scores == ScoresFor(cells, rm) && statuses == StatusesFor(cells, rm)
  {
    scores, statuses := [], [];
    var i := 0;
    while i < |cells|
      invariant 0 <= i <= |cells| && |scores| == i && |statuses| == i
      invariant forall k :: 0 <= k < i ==> scores[k] == RowScore(CellStr(cells[k]), rm)
      invariant forall k :: 0 <= k < i ==> statuses[k] == RowStatus(CellStr(cells[k]), rm)
    {
      var key := CellStr(cells[i]);
      if key in rm {
        scores := scores + [Some(rm[key].score)];
        statuses := statuses + [rm[key].status.Name()];
      } else {
        scores := scores + [None];
        statuses := statuses + ["unprocessed"];
      }
      i := i + 1;
    }
  }

  /** A column of the exported sheet: an original one, the score column or
      the status column. */
  datatype OutColumn = Original(column: Column) | ScoreColumn(scores: seq<Option<real>>) | StatusColumn(labels: seq<string>)

  /** Why the export raised. */
  datatype ExportError =
    | NoDataLoaded        // ValueError: nothing uploaded yet
    | KeyColumnMissing    // KeyError: no column with the keyword column's name
    | KeyColumnRepeated   // the name labels several columns, so no single position
    | KeyColumnDropped    // the keyword column itself was called "Score" or "Status"

  datatype ExportResult = Exported(columns: seq<OutColumn>) | ExportFailed(error: ExportError)

  function Originals(f: Frame): (r: seq<OutColumn>)
    ensures |r| == |f| && forall k :: 0 <= k < |f| ==> r[k] == Original(f[k])
  {
    seq(|f|, k requires 0 <= k < |f| => Original(f[k]))
  }

  function ScoresFor(cells: seq<Cell>, rm: map<string, Item>): (r: seq<Option<real>>)
    ensures |r| == |cells| && forall k :: 0 <= k < |cells| ==> r[k] == RowScore(CellStr(cells[k]), rm)
  {
    seq(|cells|, k requires 0 <= k < |cells| => RowScore(CellStr(cells[k]), rm))
  }

  function StatusesFor(cells: seq<Cell>, rm: map<string, Item>): (r: seq<string>)
    ensures |r| == |cells| && forall k :: 0 <= k < |cells| ==> r[k] == RowStatus(CellStr(cells[k]), rm)
  {
    seq(|cells|, k requires 0 <= k < |cells| => RowStatus(CellStr(cells[k]), rm))
  }

  /** `df.insert(i, name, data)` on the output columns. */
  function InsertAt(s: seq<OutColumn>, i: nat, c: OutColumn): (r: seq<OutColumn>)
    requires i <= |s|
    ensures |r| == |s| + 1 && r[i] == c
    ensures forall k :: 0 <= k < i ==> r[k] == s[k]
    ensures forall k :: i < k < |r| ==> r[k] == s[k - 1]
  {
    s[..i] + [c] + s[i..]
  }

  /** The remaining columns with two new ones right after position `b`. */
  function Laid(cols: Frame, b: nat, first: OutColumn, second: OutColumn): (r: seq<OutColumn>)
    requires b < |cols|
    ensures |r| == |cols| + 2 && r[b + 1] == first && r[b + 2] == second
    ensures forall k :: 0 <= k <= b ==> r[k] == Original(cols[k])
    ensures forall k :: b + 2 < k < |r| ==> r[k] == Original(cols[k - 2])
  {
    Originals(cols[..b + 1]) + [first, second] + Originals(cols[b + 1..])
  }

  /** Inserting `second` and then `first` at the same position after `b`
      leaves them in the order `first`, `second`. */
  lemma InsertTwice(cols: Frame, b: nat, first: OutColumn, second: OutColumn)
    requires b < |cols|
    ensures InsertAt(InsertAt(Originals(cols), b + 1, second), b + 1, first) == Laid(cols, b, first, second)
  {
    var once := InsertAt(Originals(cols), b + 1, second);
    var twice := InsertAt(once, b + 1, first);
    var laid := Laid(cols, b, first, second);
    forall k | 0 <= k < |laid| ensures twice[k] == laid[k] {
      if k > b + 2 {
        assert twice[k] == once[k - 1] == Originals(cols)[k - 2];
      }
    }
  }

  /** What the export produces from the uploaded sheet, the keyword column's
      name and the queued items (manual, then automatic, then excluded). */
  function ExportOf(df: Option<Frame>, key: Option<string>, items: seq<Item>): ExportResult {
    if df.None? || key.None? then ExportFailed(NoDataLoaded)
    else
      match Locate(df.value, key.value)
      case None => ExportFailed(if CountNamed(df.value, key.value) == 0 then KeyColumnMissing else KeyColumnRepeated)
      case Some(i) =>
        var cols := Drop(Drop(df.value, "Status"), "Score");
        match Locate(cols, key.value)
        case None => ExportFailed(KeyColumnDropped)
        case Some(b) => Exported(Laid(cols, b, NewScores(df.value[i].cells, items), NewStatuses(df.value[i].cells, items)))
  }

  function NewScores(cells: seq<Cell>, items: seq<Item>): OutColumn {
    ScoreColumn(ScoresFor(cells, ResultMap(items)))
  }

  function NewStatuses(cells: seq<Cell>, items: seq<Item>): OutColumn {
    StatusColumn(StatusesFor(cells, ResultMap(items)))
  }

  /** The export goes through exactly when data is loaded, the keyword
      column's name labels one column, and that name is neither `Score` nor
      `Status` (which the export deletes before inserting). */
  lemma ExportSucceeds(df: Frame, key: string, items: seq<Item>)
    ensures ExportOf(Some(df), Some(key), items).Exported? <==>
      CountNamed(df, key) == 1 && key != "Status" && key != "Score"
  {
    CountNamedDrop(df, "Status", key);
    CountNamedDrop(Drop(df, "Status"), "Score", key);
  }

  /** In an exported sheet the keyword column is followed by the score
      column and then the status column, two columns more than remained
      after the deletions, and no other column is called `Score` or
      `Status`. */
  lemma ExportLayout(df: Frame, key: string, items: seq<Item>)
    requires ExportOf(Some(df), Some(key), items).Exported?
    ensures var out := ExportOf(Some(df), Some(key), items).columns;
      var cols := Drop(Drop(df, "Status"), "Score");
      var b := Locate(cols, key).value;
      var cells := df[Locate(df, key).value].cells;
      |out| == |cols| + 2 && b + 2 < |out|
      && out[b] == Original(df[Locate(df, key).value])
      && out[b + 1] == ScoreColumn(ScoresFor(cells, ResultMap(items)))
      && out[b + 2] == StatusColumn(StatusesFor(cells, ResultMap(items)))
  {
    var i := Locate(df, key).value;
    var mid := Drop(df, "Status");
    var cols := Drop(mid, "Score");
    var b := Locate(cols, key).value;
    assert cols[b] == df[i] by {
      DropMembers(df, "Status");
      DropMembers(mid, "Score");
      assert cols[b] in cols;
      assert cols[b] in df;
    }
  }

  /** No column of the exported sheet other than the two new ones is named
      `Score` or `Status`. */
  lemma ExportDropsStaleColumns(df: Frame, key: string, items: seq<Item>)
    requires ExportOf(Some(df), Some(key), items).Exported?
    ensures var out := ExportOf(Some(df), Some(key), items).columns;
      forall k :: 0 <= k < |out| && out[k].Original? ==> out[k].column.name != "Score" && out[k].column.name != "Status"
  {
    var i := Locate(df, key).value;
    var mid := Drop(df, "Status");
    var cols := Drop(mid, "Score");
    var b := Locate(cols, key).value;
    assert forall c :: c in cols ==> c.name != "Score" && c.name != "Status" by {
      DropMembers(df, "Status");
      DropMembers(mid, "Score");
    }
    var out := ExportOf(Some(df), Some(key), items).columns;
    assert out == Laid(cols, b, NewScores(df[i].cells, items), NewStatuses(df[i].cells, items));
    forall k | 0 <= k < |out| && out[k].Original?
      ensures out[k].column.name != "Score" && out[k].column.name != "Status"
    {
      if k <= b {
        assert cols[k] in cols;
      } else {
        assert cols[k - 2] in cols;
      }
    }
  }

  /** A row whose text is the keyword of a queued item gets the score and
      status of the last such item; any other row gets no score and the
      status `'unprocessed'`. */
  lemma ExportRowValues(cells: seq<Cell>, items: seq<Item>, k: nat)
    requires k < |cells|
    ensures (forall j :: 0 <= j < |items| ==> items[j].keyword != CellStr(cells[k])) ==>
      ScoresFor(cells, ResultMap(items))[k] == None && StatusesFor(cells, ResultMap(items))[k] == "unprocessed"
    ensures forall j :: LastWithKeyword(items, j, CellStr(cells[k])) ==>
      ScoresFor(cells, ResultMap(items))[k] == Some(items[j].score)
      && StatusesFor(cells, ResultMap(items))[k] == items[j].status.Name()
  {
    forall j | LastWithKeyword(items, j, CellStr(cells[k]))
      ensures ScoresFor(cells, ResultMap(items))[k] == Some(items[j].score)
      ensures StatusesFor(cells, ResultMap(items))[k] == items[j].status.Name()
    {
      ResultMapLast(items, j);
    }
  }

  /** `items[j]` is the last item with keyword `w`. */
  predicate LastWithKeyword(items: seq<Item>, j: int, w: string) {
    0 <= j < |items| && items[j].keyword == w && forall i :: j < i < |items| ==> items[i].keyword != w
  }

  /** `generate_export_excel` once data is loaded: build the two new
      columns from the keyword column, delete any old `Status` and `Score`
      columns, and insert `Status` and then `Score` right after the keyword
      column, which leaves them in the order keyword, score, status. */
  method ExportSheet(df: Frame, key: string, items: seq<Item>) returns (r: ExportResult)
    ensures r == ExportOf(Some(df), Some(key), items)
  {
    var rm := ResultMap(items);
    var target := Locate(df, key);
    if target.None? {
      return ExportFailed(if CountNamed(df, key) == 0 then KeyColumnMissing else KeyColumnRepeated);
    }
    var scores, statuses := ResultColumns(df[target.value].cells, rm);
    var cols := df;
    if "Status" in Names(cols) {
      cols := Drop(cols, "Status");
    } else {
      DropAbsent(cols, "Status");
    }
    if "Score" in Names(cols) {
      cols := Drop(cols, "Score");
    } else {
      DropAbsent(cols, "Score");
    }
    var base := Locate(cols, key);
    if base.None? {
      return ExportFailed(KeyColumnDropped);
    }
    var b := base.value;
    var out := Originals(cols);
    out := InsertAt(out, b + 1, StatusColumn(statuses));
    out := InsertAt(out, b + 1, ScoreColumn(scores));
    InsertTwice(cols, b, ScoreColumn(scores), StatusColumn(statuses));
    r := Exported(out);
  }
}
