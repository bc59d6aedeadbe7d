/** The upload endpoint of the web backend (`server.py`, `upload_excel`):
    find the keyword column of the uploaded sheet, hand the sheet to the
    engine, and answer with the column's keywords. Reading the workbook is
    an input (a frame, or the text of the error pandas raised); routing,
    CORS and the other endpoints are not modelled. */
module Server {
  import opened Strings
  import opened Frames
  import opened WorkflowEngine

  /** The headers tried for the keyword column, in priority order. */
  const KeywordColumns: seq<string> := ["关键词", "Keyword", "Search Term", "keyword"]

  /** The detail of the re-raised error for a sheet with nothing in it:
      `str()` of the inner `HTTPException(400, "Empty Excel")`. */
  const EmptyExcelDetail: string := "400: Empty Excel"

  /** What the endpoint answers. */
  datatype UploadReply = Keywords(keywords: seq<string>, count: nat) | BadRequest(status: int, detail: string)

  /** The first candidate that is one of the names. */
  function FirstPresent(cands: seq<string>, names: seq<string>): (r: Option<string>)
    ensures r.Some? ==> r.value in cands && r.value in names
    ensures r.None? <==> forall k :: 0 <= k < |cands| ==> cands[k] !in names
    ensures r.Some? ==> exists k :: 0 <= k < |cands| && cands[k] == r.value
                                    && forall j :: 0 <= j < k ==> cands[j] !in names
  {
    if cands == [] then None
    else if cands[0] in names then Some(cands[0])
    else
      var r := FirstPresent(cands[1..], names);
      assert forall k :: 1 <= k < |cands| ==> cands[k] == cands[1..][k - 1];
      if r.Some? then
        assert exists k :: 1 <= k < |cands| && cands[k] == r.value && forall j :: 0 <= j < k ==> cands[j] !in names by {
          var k :| 0 <= k < |cands[1..]| && cands[1..][k] == r.value
                   && forall j :: 0 <= j < k ==> cands[1..][j] !in names;
          assert forall j :: 0 <= j < k + 1 ==> cands[j] !in names by {
            forall j | 0 <= j < k + 1 ensures cands[j] !in names {
              if j > 0 {
                assert cands[j] == cands[1..][j - 1];
              }
            }
          }
        }
        r
      else r
  }

  /** The candidate found first is the one at the lowest position. */
  lemma {:induction false} FirstPresentAt(cands: seq<string>, names: seq<string>, i: nat)
    requires i < |cands| && cands[i] in names
    requires forall j :: 0 <= j < i ==> cands[j] !in names
    ensures FirstPresent(cands, names) == Some(cands[i])
  {
    if i > 0 {
      assert forall j :: 0 <= j < i - 1 ==> cands[1..][j] == cands[j + 1];
      FirstPresentAt(cands[1..], names, i - 1);
    }
  }

  /** pandas' `df.empty`: no columns or no rows. */
  predicate Empty(f: Frame) {
    f == [] || f[0].cells == []
  }

  /** The column `upload_excel` settles on: the first header of the priority
      list that the sheet has, else the first column unless the sheet is
      empty. */
  function KeywordColumnOf(f: Frame): (r: Option<string>)
    ensures r.Some? ==> r.value in Names(f)
    ensures r.None? <==> Empty(f) && forall k :: 0 <= k < |KeywordColumns| ==> KeywordColumns[k] !in Names(f)
  {
    var found := FirstPresent(KeywordColumns, Names(f));
    if found.Some? then found
    else if !Empty(f) then Some(f[0].name)
    else None
  }

  /** A header of the list wins over every header after it and over the
      first-column fallback. */
  lemma KeywordColumnPriority(f: Frame, i: nat)
    requires i < |KeywordColumns| && KeywordColumns[i] in Names(f)
    requires forall j :: 0 <= j < i ==> KeywordColumns[j] !in Names(f)
    ensures KeywordColumnOf(f) == Some(KeywordColumns[i])
  {
    FirstPresentAt(KeywordColumns, Names(f), i);
  }

  /** Without any listed header, a sheet with rows uses its first column. */
  lemma KeywordColumnFallback(f: Frame)
    requires !Empty(f) && forall k :: 0 <= k < |KeywordColumns| ==> KeywordColumns[k] !in Names(f)
    ensures KeywordColumnOf(f) == Some(f[0].name)
  {
  }

  /** The loop over `possible_cols` that stops at the first header present. */
  method FindKeywordColumn(f: Frame) returns (found: Option<string>)
    ensures found == FirstPresent(KeywordColumns, Names(f))
  {
    var names := Names(f);
    found := None;
    for i := 0 to |KeywordColumns|
      invariant found.None?
      invariant forall j :: 0 <= j < i ==> KeywordColumns[j] !in names
    {
      if KeywordColumns[i] in names {
        found := Some(KeywordColumns[i]);
        FirstPresentAt(KeywordColumns, names, i);
        break;
      }
    }
  }

  /** `df[col].dropna().astype(str).tolist()` for the first column named `col`:
      the text of every present cell, in column order. */
  function ColumnKeywords(f: Frame, col: string): (r: seq<string>)
    requires col in Names(f)
    ensures var cells := f[IndexOf(Names(f), col)].cells;
      && |r| + CountMissing(cells) == |cells|
      && (forall i :: 0 <= i < |cells| && cells[i] != Missing ==>
            i - CountMissing(cells[..i]) < |r| && r[i - CountMissing(cells[..i])] == CellStr(cells[i]))
      && (forall x :: x in r ==> exists c :: c in cells && c != Missing && x == CellStr(c))
      && (forall c :: c in cells && c != Missing ==> CellStr(c) in r)
  {
    var cells := f[IndexOf(Names(f), col)].cells;
    PresentStrs(cells);
    CellStrs(DropMissing(cells))
  }

  /** The text of the present cells lines up with the column: each present
      cell's text sits at its position less the missing cells before it. */
  lemma PresentStrs(cells: seq<Cell>)
    ensures var r := CellStrs(DropMissing(cells));
      && |r| + CountMissing(cells) == |cells|
      && (forall i :: 0 <= i < |cells| && cells[i] != Missing ==>
            i - CountMissing(cells[..i]) < |r| && r[i - CountMissing(cells[..i])] == CellStr(cells[i]))
      && (forall x :: x in r ==> exists c :: c in cells && c != Missing && x == CellStr(c))
      && (forall c :: c in cells && c != Missing ==> CellStr(c) in r)
  {
    var kept := DropMissing(cells);
    var r := CellStrs(kept);
    DropMissingPositions(cells);
    forall x | x in r ensures exists c :: c in cells && c != Missing && x == CellStr(c) {
      var k :| 0 <= k < |r| && r[k] == x;
      assert kept[k] in kept;
    }
    forall c | c in cells && c != Missing ensures CellStr(c) in r {
      var k :| 0 <= k < |kept| && kept[k] == c;
      assert r[k] == CellStr(c);
    }
  }

  /** `upload_excel` once the upload is read: `parsed` is the sheet pandas
      read, or `None` with `readError` the text of what it raised. Every
      failure answers 400; on success the engine holds the sheet and its
      keyword column, and the answer lists the column's keywords with their
      count. */
  method UploadExcel(engine: Engine, parsed: Option<Frame>, readError: string) returns (reply: UploadReply)
    modifies engine`originalFrame, engine`keywordColumn
    ensures parsed.None? ==>
      reply == BadRequest(400, readError) && unchanged(engine`originalFrame, engine`keywordColumn)
    ensures parsed.Some? && KeywordColumnOf(parsed.value).None? ==>
      reply == BadRequest(400, EmptyExcelDetail) && unchanged(engine`originalFrame, engine`keywordColumn)
    ensures parsed.Some? && KeywordColumnOf(parsed.value).Some? ==>
      var col := KeywordColumnOf(parsed.value).value;
      var keywords := ColumnKeywords(parsed.value, col);
      && engine.originalFrame == parsed && engine.keywordColumn == Some(col)
      && reply == Keywords(keywords, |keywords|)
  {
    if parsed.None? {
      return BadRequest(400, readError);
    }
    var df := parsed.value;
    var found := FindKeywordColumn(df);
    if found.None? {
      if !Empty(df) {
        found := Some(df[0].name);
      } else {
        return BadRequest(400, EmptyExcelDetail);
      }
    }
    engine.SetData(df, found.value);
    var keywords := ColumnKeywords(df, found.value);
    reply := Keywords(keywords, |keywords|);
  }
}
